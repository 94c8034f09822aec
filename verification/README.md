# geistshell: verified models

A Dafny 4.11 model of the parts of geistshell that carry its guarantees, with proofs. Each module follows
one source file: methods and classes stand for the C functions and the structures they update, and are
proved against functions and predicates that say what is computed without saying how.

- `HashTree`, `Hash`: BLAKE3 as a recursive tree over chunks, and the streaming hasher with its buffer,
  counter and stack of chaining values. The compression function is a parameter.
- `SexprLex`, `SexprTree`, `SexprParse`, `SexprPrint`, `SexprText`, `SexprRead`: tokenizer, node array,
  tree builder, printing and reading back, numbers and the bounded writer, and cursors over parsed text.
- `Schema`, `RunConfig`, `BudgetConfig`, `Recommendation`: the validator and the readers behind it. They work
  on the node array; what they accept is stated on forms, which have no positions.
- `ChatTemplate`, `GuardRing`: the bounded stores. The transcript is a function of all turns, the ring one of the
  whole history of records.
- `ContextView`, `ContextRender`: the choice of what a context shows, and its rendering.
- `Device`: the channel table and the watchdog, against the trace of all calls.
- `CmdExecutor`: the loop over many children. What `poll` and `read` return is given from outside, in any order.
- `Eval`, `Keys`, `Improve`: task shapes, what their keys tell apart, the choice among attempts, and the learning
  loop over a store of lessons. `PrintedReplies` writes replies out, and shows what their readers see.
- `HashLayout`, `SexprGrammar`, `SexprSpacing`, `SchemaForms`, `RunForms`, `ReplyForms`, `KeyForms`, `ContextForms`,
  `CommandForms`: the same behaviour a second time, in the words of the formats themselves. They name none of the
  functions the code is proved against but to say that these are what the words say: which block holds what, which texts
  are tokens, gaps or faults, which forms load and what is loaded, and which characters make up a key or a context.
- `Statuses`, `Sequences`, `Entries`: status codes, reordered sequences, and lists that set keys.

A `char` stands for one byte. Status codes are those of the source; `InvalidArg`, `NotFound`, `Schema` and so on
stand for `SPG_E_INVALID_ARG`, `SPG_E_NOT_FOUND`, `SPG_E_SCHEMA`.

## Where the code differs from its comments

The model follows the code. For each difference a lemma says exactly when the comment holds, and, where the failing
side is not obvious, another shows it at an input.

- A chat turn is documented as refused only if it does not fit an empty buffer, and then as leaving the transcript
  unchanged. The last exchange is never evicted, and older ones may be gone (`ChatTemplate.AcceptedIff`,
  `ChatTemplate.RefusalUnchangedIff`, `ChatTemplate.RefusalDropsExchanges`).
- Eviction is documented as dropping whole exchanges; one with the user marker in its message or in its reply is cut
  open (`ChatTemplate.DroppedWholeIff`, `ChatTemplate.MarkInMessageCutsInside`).
- The guard ring compares full shapes with truncated ones, so a shape of more than 128 bytes is never found again, and
  the ring holds the newest guards exactly when none of these has such a shape (`GuardRing.FoundAfterRecordIff`,
  `GuardRing.RingHoldsNewestIff`).
- Three run fields are optional, but a run form with all three has ten fields and the table allows nine
  (`RunConfig.AllOptionsRefused`, `RunConfig.TenFieldsRefused`).
- A failed budgets load is documented as leaving zeros; values read before the failure stay
  (`BudgetConfig.ZeroOnErrorIff`, `BudgetConfig.ValueStaysOnError`).
- The budgets are documented as all named exactly once; two of them are optional (`BudgetConfig.AllNamedIff`,
  `BudgetConfig.RequiredSuffice`).
- An expected observation is documented as non-empty; an empty one loads (`RunConfig.EmptyExpectIff`,
  `RunConfig.EmptyExpectLoads`).
- A set-mode shape ignores the order of its tokens only up to 16 different ones (`Eval.OrderIrrelevantIff`), and a script
  has the key of its policy in every order only up to as many (`Eval.PolicyMatchesAllIff`).
- A token holds 48 bytes of kind and capability, and keys join tokens. Actions share a token exactly when they agree up
  to there (`Keys.TokenIff`); without the joiner trajectories share a key exactly when the first 16 different actions,
  or in sequence mode the first 16 runs, agree up to there (`Keys.SetKeyIff`, `Keys.SequenceKeyIff`). So the same
  set-mode key means the same actions under these conditions (`Keys.SameKeyIff`): at most 16 different actions, none too
  long for its token, and none with the joiner. A long capability and one with the joiner do collide
  (`PrintedReplies.LongRepliesShareKeys`, `PrintedReplies.JoinedRepliesShareKey`).
- A finish is documented as adding its kind to a shape; it adds nothing (`Eval.FinishAddsNothing`,
  `PrintedReplies.FinishReply`).
- An unparseable reply is documented as skipped. Only one that is too long is; a rejected reply counts as a bare
  `local_shell` (`Eval.AddsNothingIff`, `Eval.UnparseableAdds`), which leaves the shape alone exactly when it has that
  token anyway or was full (`Eval.RejectedUnchangedIff`), and the sequence exactly when it is not seen there
  (`Keys.RejectedRunsIff`).
- Reverting a lesson deletes an older lesson stored under the same slug (`Improve.RevertRestoresIff`,
  `Improve.TakenSlugLosesLesson`).
- A writable channel is documented as fed by writes alone, so that reads cannot mask an actuator whose writes no longer
  land. Reads feed it as well: an actuator that is read but never written to stays alive for ever
  (`Device.ReadsHideSilentActuator`). The stamps agree exactly when no read was folded in since the last write or arming
  (`Device.FedByWritesIff`), and the documented verdict is given except exactly where reads hide an overdue channel
  (`Device.DocumentedVerdictIff`).
- Reading a channel whose program prints no number is documented as an I/O error; it is a format error
  (`Device.ReadStatusIff`).
- A timeout is documented as killing stragglers; a child that has closed its pipes can no longer time out
  (`CmdExecutor.TimedOutMeans`, `CmdExecutor.ClosedPipesNeverTimeOut`).

## Model

| member | source | states |
|---|---|---|
| HashTree.LargestPowerBelow | src/core/hash.c:206-227 | The left subtree takes the largest power of two of chunks below the total: no larger power fits below n. |
| HashTree.TreeByLevels | src/core/hash.c:206-227 | Joining neighbours level by level gives the same root as the left-full recursion of section 2.1 of the BLAKE3 specification. |
| HashTree.StackLength | src/core/hash.c:206-227 | The stack after k chaining values holds one value per set bit of k. |
| HashTree.BitSizesShape | src/core/hash.c:206-227 | The subtree sizes on the stack are powers of two, strictly decreasing, and add up to the number of chunks. |
| HashTree.StackHoldsSubtrees | src/core/hash.c:206-240 | Each value on the stack is the root of the full subtree over its own consecutive run of chunks. |
| HashTree.PushOntoOdd | src/core/hash.c:210-218 | A push onto an odd count joins the top of the stack with the new value and carries one level up. |
| HashTree.MergeGivesTree | src/core/hash.c:283-290 | Merging the stack from right to left with the last chunk yields the root of the whole tree. |
| HashTree.PopCountBound | src/core/hash.c:219-224 | A count has m set bits at most as long as it stays below 2^m, and exactly m only at 2^m - 1. |
| Hash.ChunkOutputOf | src/core/hash.c:145-185 | The block loop computes the chunk value of section 2.4 of the BLAKE3 specification, the last block left uncompressed. |
| Hash.OutputRootBytes | src/core/hash.c:126-143 | The output loop writes the first n bytes of the root's extendable output, one compression per 64 bytes. |
| Hash.PushIsStack | src/core/hash.c:206-227 | Pushing one more value onto the stack of n values gives exactly the stack of n + 1 values, or runs out of depth, and never pops an empty stack. |
| Hash.DepthSuffices | src/core/hash.c:219-238 | No input below 2^64 bytes reaches the chunk count at which the stack runs out, and that count is exactly where it does. |
| Hash.LastChunkAndStack | src/core/hash.c:273-294 | The stack of all full chunks merged with the buffered chunk is the root of the tree over the whole input. |
| Hash.Hasher.PushCv | src/core/hash.c:206-227 | The in-place push is the push on the stack as a value, status included. |
| Hash.Hasher.PushNext | src/core/hash.c:206-227 | The stack goes from that of all flushed chunks to that of one chunk more. |
| Hash.Hasher.FlushChunk | src/core/hash.c:229-240 | A full buffer becomes one chaining value; the only failure is running out of depth. |
| Hash.Hasher.Update | src/core/hash.c:249-271 | Absorbs any slice, the empty one included, keeps the buffer non-empty after the first byte, and fails only beyond the depth limit. |
| Hash.Hasher.Final | src/core/hash.c:273-294 | Writes the BLAKE3 hash of everything absorbed, of any length. |
| Hash.HashBytes | src/core/hash.c:296-309 | The one-call form returns the tree hash of its input. |
| Hash.HashInPieces | src/core/hash.c:249-294 | Every way of slicing an input below 2^64 bytes into updates gives the tree hash of the whole, without any error. |
| HashLayout.RootIsParent | src/core/hash.c:187-198 | Of more than one chunk the root is a parent block: the chaining value of the left subtree in words 0-7, that of the right one in words 8-15, the initial value as input, counter 0, 64 bytes, and of the flags parent alone. |
| HashLayout.ChunkIsBlocks | src/core/hash.c:145-185 | Block j of a chunk holds bytes 64j onwards as little-endian words, carries the chunk counter, is marked as the start for j = 0 and as the end for the last, and takes its input from the block before it. |
| HashLayout.LeafIsChunk | src/core/hash.c:229-271 | Leaf i is the chunk of the 1024 bytes from byte 1024i on, with counter i. |
| HashLayout.OutputWords | src/core/hash.c:126-143 | Output byte b is byte b mod 4 of word b / 4 mod 16 of the root block compressed again, as root, with counter b / 64. |
| HashLayout.OutputPrefix | src/core/hash.c:126-143 | A shorter output is a prefix of a longer one. |
| HashLayout.HashSpelledOut | src/core/hash.c:249-294 | Hashing in pieces gives these output bytes of a root that is these blocks. |
| SexprLex.LexStep | src/dsl/sexpr.c:139-252 | One turn of the tokenizer's loop advances and agrees with the recursive tokenizer. |
| SexprLex.Tokenize | src/dsl/sexpr.c:122-254 | The token array receives exactly the tokens before the first error, a limit error stands at the first token that does not fit. |
| SexprLex.PositionsExact | src/dsl/sexpr.c:137-252 | Every token and every lexical error carries the true line and column of its offset. |
| SexprLex.PositionsOfText | src/dsl/sexpr.c:137-252 | So it is of every text: its first byte is byte 1 of line 1. |
| SexprLex.LexedIn | src/dsl/sexpr.c:102-120 | Every token lies inside the input and a string token has both its quotes. |
| SexprGrammar.WellSpacedIsRead | src/dsl/sexpr.c:122-254 | A text made of tokens with gaps of blanks, line ends and comments between them is read as exactly these tokens, each at its place. |
| SexprGrammar.EveryText | src/dsl/sexpr.c:122-254 | Every text is tokens and gaps up to its end or up to the first fault. |
| SexprGrammar.EveryTextIsRead | src/dsl/sexpr.c:122-254 | Of every text these tokens are read, and the fault, if there is one, is reported at its place. |
| SexprGrammar.CommentIsBlank | src/dsl/sexpr.c:157-163 | A comment may as well be blanks: the tokens behind it, their positions and the error are the same. |
| SexprGrammar.LexFault | src/dsl/sexpr.c:177-252 | A stray byte, a bad escape, a raw control character or an open string is an error at that byte. |
| SexprTree.ChildAt | src/dsl/sexpr.c:256-289 | In a represented forest child k sits at its preorder index and links to child k + 1. |
| SexprTree.RepresentedLinks | src/dsl/sexpr.c:256-289 | Parents lie below children, sibling chains lead strictly forward to nodes of the same parent, and last_child is the true end of its chain. |
| SexprTree.WalkGivesTokens | src/dsl/sexpr.c:291-364 | Walking the array by its links alone gives back the input tokens in order. |
| SexprParse.RunFacts | src/dsl/sexpr.c:291-364 | The open lists keep every token, in order, and count every node. |
| SexprParse.BalancedIsRun | src/dsl/sexpr.c:312-361 | A token sequence builds a forest exactly when its parentheses balance. |
| SexprParse.FlattenInjective | src/dsl/sexpr.c:291-364 | No two forests have the same tokens. |
| SexprParse.ForestExists | src/dsl/sexpr.c:291-364 | A token sequence is that of some forest exactly when it balances. |
| SexprParse.StatusDecided | src/dsl/sexpr.c:312-361 | Token kinds and room alone decide whether a parse succeeds, lacks room or is malformed. |
| SexprParse.StatusInWords | src/dsl/sexpr.c:312-361 | The first token that closes no open list, or for which no node is left, decides the status, and behind the last token whether as many lists are closed as opened. |
| SexprParse.AppendChild | src/dsl/sexpr.c:256-264 | Patches exactly the links of the parent and of the former last child. |
| SexprParse.PushNodeInto | src/dsl/sexpr.c:266-289 | Appends one linked node, or reports that there is no room. |
| SexprParse.Parse | src/dsl/sexpr.c:291-364 | Succeeds exactly when the parentheses balance and the nodes fit; the array then is the forest, and every failure names its token. Without any room it is an invalid call. |
| SexprPrint.ScanEscaped | src/dsl/sexpr.c:177-214 | An escaped text is scanned up to its closing quote, whatever the text. |
| SexprPrint.LexDatum | src/dsl/sexpr.c:122-254 | Tokenizing printed data yields exactly its tokens and goes on behind it. |
| SexprPrint.RoundTrip | src/context/context.c:487-505 | Printing any tree of symbols and quoted texts, then tokenizing and parsing, returns that tree. |
| SexprPrint.QuotedIsOneToken | src/context/context.c:487-505 | Any NUL-free text, quoted, is read as exactly one string token that unescapes to the text. |
| SexprSpacing.SpacedIsReadBack | src/dsl/sexpr.c:122-254 | A datum laid out with any gaps of blanks, line ends and comments between its tokens is read back as that datum. |
| SexprSpacing.TextStatusInWords | src/dsl/sexpr.c:366-392 | The status of a text from its pieces: too many tokens, then a fault, then the lists they open and close. |
| SexprText.ParseUint64 | src/dsl/sexpr.c:64-86 | The digits before the first other byte decide about overflow, a further byte is a format error, otherwise the value is the number. |
| SexprText.ValueIsPositional | src/dsl/sexpr.c:64-86 | The value of a number is the sum of its digits times their powers of ten. |
| SexprText.NumberStatusMeans | src/dsl/sexpr.c:64-86 | A text is a number exactly when it is all digits and at most 18446744073709551615; the digits at its front decide between overflow and a format error. |
| SexprText.DecimalRoundTrip | src/dsl/sexpr.c:435-443 | Printing and parsing a 64-bit number are inverse, in at most 20 digits. |
| SexprText.U64ToDec | src/dsl/sexpr.c:435-443 | The back-to-front loop writes the decimal digits without leading zeros, terminated. |
| SexprText.Writer.AppendText | src/dsl/sexpr.c:409-430 | An append that does not fit writes nothing and closes the writer. |
| SexprText.WriterKeepsFittingPrefix | src/dsl/sexpr.c:409-430 | After any run of appends the buffer holds exactly the appends before the first that did not fit. |
| SexprRead.ParseText | src/dsl/sexpr.c:366-392 | Tokenizing and parsing in one call: the status is decided by the text and the capacities, and success means that the text reads as the forest in the array. |
| SexprRead.StatusMeans | src/dsl/sexpr.c:366-392 | A text parses exactly when it reads as some forest within the capacities. |
| SexprRead.ReadsOnce | src/dsl/sexpr.c:366-392 | A text reads as at most one forest. |
| SexprRead.ChildStands | src/dsl/schema.c:58-67 | A walk over first_child and next_sibling sees each item of a list once, in order, moving forward in the array, and then ends. |
| SexprRead.NodeSays | src/dsl/sexpr.c:25-62 | Kind, text and payload span of a node are those of the form it stands for. |
| Schema.ValidateDepth | src/dsl/schema.c:69-89 | The walk up the parents terminates and accepts exactly when no node lies deeper than the limit. |
| Schema.ForestDepth | src/dsl/schema.c:69-89 | That is exactly when no form is nested deeper than the limit. |
| Schema.ChildCount | src/dsl/schema.c:58-67 | Counts the items of a list. |
| Schema.FindRule | src/dsl/schema.c:21-37 | The first rule whose name is the symbol at the head of the form. |
| Schema.FieldKnown | src/dsl/schema.c:39-56 | A field is known exactly when some rule has its name. |
| Schema.ValidateFieldValues | src/dsl/schema.c:108-135 | A field is accepted exactly when its values have the right number and kinds. |
| Schema.ApplyRule | src/dsl/schema.c:154-191 | One rule's pass over the fields accepts exactly when all fields are lists, the rule's own are well formed, unique if they must be, and there if they must be. |
| Schema.MatchesUnique | src/dsl/schema.c:173-177 | Counting at most one match is having no two fields of that name. |
| Schema.CheckKnown | src/dsl/schema.c:193-204 | Accepts exactly when every field is a list with a known name. |
| Schema.ValidateFormFields | src/dsl/schema.c:137-207 | A form is accepted exactly when it obeys its rule. |
| Schema.TopScan | src/dsl/schema.c:230-233 | Scanning for nodes without a parent finds the top-level forms, each once and in order. |
| Schema.ValidateTop | src/dsl/schema.c:241-261 | A top-level form is judged by the rule of its name, or by whether unknown forms are allowed. |
| Schema.Validate | src/dsl/schema.c:209-265 | Accepts parser output exactly when the declarative rules hold: depth, number of forms, known names, field counts, uniqueness, required fields, value counts and kinds. |
| Schema.FieldOrderIrrelevant | src/dsl/schema.c:137-207 | Reordering the fields of a form does not change whether it obeys its rule. |
| SchemaForms.DepthIsPaths | src/dsl/schema.c:69-89 | The depth limit is that of the ways down into a form. |
| SchemaForms.ObeysIs | src/dsl/schema.c:137-265 | What a schema accepts, counted from the elements themselves: numbers of forms, fields and values, their kinds, names once or at least once, unknown names, and the first rule of a name. |
| Entries.OkOfPermutation | src/core/budget_config.c:66-77 | A list that sets no key twice still does so in any other order. |
| Entries.TableOfPermutation | src/actor/recommendation.c:299-478 | A reordered list sets the same keys to the same values. |
| Entries.TableOnce | src/actor/recommendation.c:299-478 | A list stands for one table only. |
| BudgetConfig.ReadPair | src/core/budget_config.c:44-64 | An item is exactly two symbols, the second a 64-bit number. |
| BudgetConfig.SetField | src/core/budget_config.c:66-87 | Writes the named field, or refuses an unknown or repeated name and writes nothing. |
| BudgetConfig.ParseBudgetItem | src/core/budget_config.c:44-87 | One item extends the table of fields by its own, or fails and leaves it. |
| BudgetConfig.FillMissing | src/core/budget_config.c:112-124 | Fallbacks are filled in up to the first required field that is missing. |
| BudgetConfig.ParseBudgets | src/core/budget_config.c:89-125 | Status and result array of the whole call. |
| BudgetConfig.OutcomeMeans | src/core/budget_config.c:89-125 | The code accepts exactly the lists that are well formed, set no field twice and every required one, and returns what they mean. |
| BudgetConfig.LoadsIff | src/core/budget_config.c:44-125 | Budgets load exactly when each item is one of the seven names with a 64-bit number, none comes twice, and the five that are not optional are there. |
| BudgetConfig.LoadedNumbers | src/core/budget_config.c:26-34 | Each budget is the number that stands with its name, and 18446744073709551615 without it. |
| BudgetConfig.AbsentIsNoLimit | src/core/budget_config.c:26-34 | No 64-bit number is above a budget that is not given. |
| BudgetConfig.FirstFaultDecides | src/core/budget_config.c:44-87 | The first wrong item decides: the error of its number, or a schema error for its shape, an unknown name or one that was there before. |
| BudgetConfig.MissingIsFault | src/core/budget_config.c:112-124 | With every item right the only fault is a missing name that is not optional. |
| BudgetConfig.AllNamedIff | include/geistshell/run_config.h:71-76 | The rule that every budget is named exactly once decides as the code does exactly when it is not the optional ones alone that are missing. |
| BudgetConfig.RequiredSuffice | src/core/budget_config.c:112-124 | The five required budgets alone are accepted. |
| BudgetConfig.OrderIrrelevant | src/core/budget_config.c:89-125 | Whether budgets load, and their values, do not depend on the order of the items. |
| BudgetConfig.ErrorDependsOnOrder | src/core/budget_config.c:44-87 | Which error is reported does depend on it. |
| BudgetConfig.ZeroOnErrorIff | src/core/budget_config.c:79-124 | A failed load leaves the result zero exactly when all items read before the failure were zero and no fallback was filled in before it. |
| BudgetConfig.ValueStaysOnError | src/core/budget_config.c:79 | A concrete list after whose failure a value stays in the result. |
| RunConfig.SchemaPromises | src/core/run_config.c:9-93 | What the schema tables guarantee: one run form, every required field there, and every value of the kind the loader expects. |
| RunConfig.AllOptionsRefused | src/core/run_config.c:78-85 | With every field rule kept, a run form is accepted exactly when it leaves out one of the three optional fields. |
| RunConfig.TenFieldsRefused | src/core/run_config.c:78-85 | A concrete form that keeps every field rule and is refused, and is accepted without its post_check. |
| RunConfig.EmptyExpectIff | src/core/run_config.c:267-306 | The rule that an expected observation is not empty is kept exactly when it is not, or something else fails anyway. |
| RunConfig.EmptyExpectLoads | src/core/run_config.c:267-278 | A concrete form with an empty expected observation that loads. |
| RunConfig.FindField | src/core/run_config.c:107-126 | The sibling walk finds the first field of a name, and INVALID exactly when there is none. |
| RunConfig.StringValueSpan | src/core/run_config.c:128-137 | The payload of a field's string value, or a schema error. |
| RunConfig.NumberValue | src/core/run_config.c:139-149 | The number of a field's symbol value, or its format or overflow error. |
| RunConfig.AssignPathField | src/core/run_config.c:151-167 | A required text is found exactly when its field holds a string. |
| RunConfig.AssignOption | src/core/run_config.c:267-287 | An optional text is there exactly when its field is. |
| RunConfig.Config.LoadPaths | src/core/run_config.c:228-253 | The five paths. |
| RunConfig.Config.LoadNumbers | src/core/run_config.c:255-265 | The seed lookup cannot miss; seed and budgets are what their fields say, or the first of their errors. |
| RunConfig.Config.LoadOptions | src/core/run_config.c:267-306 | The three optional texts; only an empty post_check is refused. |
| RunConfig.Config.LoadForm | src/core/run_config.c:227-308 | Behind the schema the only failures are the seed's number, the budgets and an empty post_check. |
| RunConfig.Config.Load | src/core/run_config.c:189-309 | The status of a load is decided by the text, and on success every field of the configuration says what the run form says. |
| RunForms.RunLoadsIff | src/core/run_config.c:9-93 | A text loads exactly when it is one run form of at most nine fields: five paths, a seed that is a number and budgets that load, each once, and at most the three options, of which a check has a command. |
| RunForms.LoadedSaysForm | src/core/run_config.c:189-309 | Each path, option and number of the configuration is that of the field of its name; absent options and budgets are absent and unlimited. |
| RunForms.FaultInWords | src/core/run_config.c:189-309 | Behind the schema a seed that is no number comes first, then the budgets, then a check without a command; nothing else can be wrong. |
| Recommendation.StepMeans | src/actor/recommendation.c:299-460 | A field is taken exactly when it is well formed and its name is new. |
| Recommendation.ValidMeans | src/actor/recommendation.c:277-478 | A reply is valid exactly when its first form says something: known fields, none twice, well typed, complete for its kind and within the kind's rules. |
| Recommendation.SaysOnce | src/actor/recommendation.c:277-478 | A reply says one thing. |
| Recommendation.FieldOrderIrrelevant | src/actor/recommendation.c:299-478 | Reordering the fields changes neither whether a reply is valid nor what it says, and forms behind the first do not matter. |
| Recommendation.SignedRange | src/actor/recommendation.c:362-386 | A device value lies strictly inside the signed 64-bit range, and every such number can be written. |
| Recommendation.KindFieldsMatchMeans | src/actor/recommendation.c:152-212 | The switch over kinds is the table of needed, forbidden and network fields. |
| ReplyForms.ValidIff | src/actor/recommendation.c:152-212 | A reply is valid exactly when it is a recommendation of one of the ten kinds whose fields are well formed, none twice: only a probe or a finish may use the network and a probe must; a command for a local shell alone, a device value for a device write alone; target, slug, description and body as the kind needs and allows. |
| ReplyForms.FirstWrongDecides | src/actor/recommendation.c:299-460 | The first wrong field decides the reason: its shape or name, a name that was there before, an unknown kind, a wrong value. |
| ReplyForms.RulesDecide | src/actor/recommendation.c:462-478 | With every field right a missing field comes first, and then what the kind does not allow. |
| ReplyForms.OtherFaults | src/actor/recommendation.c:277-297 | A reply without a form is empty, another form is no recommendation, and one without a kind lacks a field. |
| ReplyForms.JudgedInWords | src/actor/recommendation.c:239-488 | The verdict is valid exactly for these replies, and the record holds the kind, the flag, the numbers and the texts of the fields of these names. |
| Recommendation.AssignSays | src/actor/recommendation.c:329-452 | Filling in one field of the record keeps the record in step with the fields read. |
| Recommendation.ReadSigned | src/actor/recommendation.c:362-386 | The signed value of a symbol node, and nothing for any other. |
| Recommendation.KindForName | src/actor/recommendation.c:104-150 | The kind a symbol names, if it is one of the ten. |
| Recommendation.ReadSlot | src/actor/recommendation.c:329-452 | The value of each field from its node, or a fault. |
| Recommendation.FieldForName | src/actor/recommendation.c:50-89 | The field a name stands for. |
| Recommendation.FieldParts | src/actor/recommendation.c:301-313 | A field is a list of a symbol and one value. |
| Recommendation.ReadField | src/actor/recommendation.c:300-460 | One field more, or the reason to reject the reply. |
| Recommendation.ReadFields | src/actor/recommendation.c:299-460 | The loop over the fields: the first fault decides, and otherwise the record says what the fields say. |
| Recommendation.JudgeFirst | src/actor/recommendation.c:277-487 | The verdict on a parsed reply, with its reason. |
| Recommendation.Parse | src/actor/recommendation.c:239-488 | A reply that does not fit the arrays has a status of its own; every other is rejected for a stated reason or valid, and then the record says what it says. |
| ChatTemplate.NoStraddling | src/chat/chat_template.c:35-47 | The user marker never appears across the seam of two exchanges. |
| ChatTemplate.FirstCutIff | src/chat/chat_template.c:35-47 | The first exchange is dropped as a whole exactly when no marker stands behind its own. |
| ChatTemplate.OneExchangeIff | src/chat/chat_template.c:67-83 | A user turn is one exchange exactly when its message holds no marker. |
| ChatTemplate.WholeExchangeIff | src/chat/chat_template.c:67-97 | A user turn with its reply is one exchange exactly when neither holds a marker. |
| ChatTemplate.DroppedWholeIff | src/chat/chat_template.c:35-97 | In front of other exchanges a turn with its reply is dropped as a whole exactly when neither holds a marker. |
| ChatTemplate.MarkInMessageCutsInside | src/chat/chat_template.c:35-97 | A conversation of one message, which holds the marker, and an empty reply: the transcript begins inside the message. |
| ChatTemplate.EvictedIsLongest | src/chat/chat_template.c:58-65 | Whatever the texts say, what is kept is the longest part from a marker on that leaves room, or the part from the last marker on. |
| ChatTemplate.EvictsWholeExchanges | src/chat/chat_template.c:35-65 | With mark-free texts whole exchanges are dropped, and never the last one. |
| ChatTemplate.BeginsAtUserTurn | include/geistshell/chat_template.h:12-16 | Whatever the messages say, the transcript always begins at a user turn, as long as replies come to a transcript that is not empty. |
| ChatTemplate.TranscriptIsExchanges | include/geistshell/chat_template.h:12-16 | Over any such conversation with mark-free texts the transcript is the last exchanges of the accepted turns, each of them whole. |
| ChatTemplate.AcceptedIff | src/chat/chat_template.c:58-83 | A turn is accepted exactly when it fits beside some part of the transcript that begins at a marker; room in an empty buffer is not enough. |
| ChatTemplate.RefusalUnchangedIff | src/chat/chat_template.c:67-97 | A refused turn leaves the transcript unchanged exactly when it held one marker only. |
| ChatTemplate.TakenInWords | src/chat/chat_template.c:58-83 | Of all cuts at a user turn that leave room the shortest is made and the turn is added; if none does, the longest is made and the turn is refused. |
| ChatTemplate.RefusalDropsExchanges | src/chat/chat_template.c:67-83 | A concrete transcript that a refused turn shortens. |
| ChatTemplate.History.EvictOldest | src/chat/chat_template.c:35-47 | Drops everything up to the next marker, if there is one. |
| ChatTemplate.History.MakeRoom | src/chat/chat_template.c:58-65 | Evicts exactly as far as needed. |
| ChatTemplate.History.AddUser | src/chat/chat_template.c:67-83 | The transcript after any message is the one the turns determine, terminated; the turn is appended exactly when it fits. |
| ChatTemplate.History.AddAssistant | src/chat/chat_template.c:85-97 | The same for a reply, in whatever order it comes. |
| ChatTemplate.History.Reset | src/chat/chat_template.c:23-28 | An empty transcript. |
| GuardRing.RecencyIsLastRecords | src/eval/guard_ring.c:21-54 | The recency list holds each recorded shape once, newest first, with its latest path. |
| GuardRing.RecencyIsComplete | src/eval/guard_ring.c:21-54 | No recorded shape is missing from it. |
| GuardRing.NewestNext | src/eval/guard_ring.c:21-54 | A record moves its entry to the front of the 32 newest, and at most the oldest drops out. |
| GuardRing.Pigeonhole | src/eval/guard_ring.c:21-54 | Different slots below 32: at most 32, and 32 of them are all. |
| GuardRing.RingHoldsNewest | src/eval/guard_ring.c:21-54 | After any sequence of records the ring holds exactly the 32 most recently recorded distinct shapes, each with its latest path, in pairwise different slots, if none of these is too long, whatever was recorded before. |
| GuardRing.RingHoldsNewestIff | src/eval/guard_ring.c:21-54 | That condition is exact. |
| GuardRing.RecencyOfBack | src/eval/guard_ring.c:21-54 | The recency list of the last records is a prefix of that of all records. |
| GuardRing.FindIsNewestIff | src/eval/guard_ring.c:67-78 | Finding a shape in the ring is finding it among the newest entries, for every shape, exactly when none of these entries has a shape that is too long. |
| GuardRing.FoundAfterRecordIff | src/eval/guard_ring.c:32-50 | A shape just recorded is found again exactly when it is at most 128 bytes long. |
| GuardRing.FoundUntilEvicted | src/eval/guard_ring.c:21-78 | A shape is found, with the first 256 characters of its latest path, as long as fewer than 32 other shapes were recorded since its last record, and then no more, when the newest shapes fit. |
| GuardRing.NeverFound | src/eval/guard_ring.c:67-78 | A shape that was never recorded is not found. |
| GuardRing.Ring.Record | src/eval/guard_ring.c:21-54 | The slots follow the history of all calls; the slot is the shape's own, else the first free, else the oldest. |
| GuardRing.Ring.Count | src/eval/guard_ring.c:56-65 | The number of slots in use. |
| GuardRing.CountIsNewest | src/eval/guard_ring.c:56-65 | That is the number of newest entries, if none of these has a shape that is too long. |
| GuardRing.Ring.Find | src/eval/guard_ring.c:67-78 | The guard stored for a shape. |
| GuardRing.Ring.Gate | src/eval/guard_ring.c:80-97 | Passes exactly when every guard that passed without the lesson passes with it. |
| CmdExecutor.FlowIsStream | src/exec/cmd_executor.c:81-107 | After any run a pipe has delivered exactly the bytes that its own reads carry up to its end, and is open until that end was read. |
| CommandForms.StreamIs | src/exec/cmd_executor.c:81-107 | A stream is the bytes of its reads one after the other, up to the end of the pipe or an error. |
| CommandForms.ReadsUpToBlock | src/exec/cmd_executor.c:81-107 | Of one poll the reads count up to the first that would block. |
| CmdExecutor.StreamDecides | src/exec/cmd_executor.c:428-488 | Runs of any lengths and interleavings leave a pipe in the same state when it carries the same bytes and came to its end in both or in neither. |
| CmdExecutor.RunsAgree | src/exec/cmd_executor.c:58-107 | Two runs, however interleaved and cut into reads, in which a pipe carries the same bytes leave the same text, length and truncation flag. |
| CmdExecutor.ChunkingIrrelevant | src/exec/cmd_executor.c:81-107 | Where a stream is cut into reads does not matter, with interruptions between, within a poll or across polls. |
| CmdExecutor.OthersIrrelevant | src/exec/cmd_executor.c:428-488 | Polls that other children cause, any number of them anywhere, change nothing for a pipe. |
| CmdExecutor.TimedOutMeans | src/exec/cmd_executor.c:474-487 | A child has timed out exactly when some poll ended past its deadline before one of its pipes had come to its end. |
| CmdExecutor.ClosedPipesNeverTimeOut | src/exec/cmd_executor.c:474-489 | A child whose pipes have both come to their end no longer times out, whatever follows. |
| CmdExecutor.CapturedAppend | src/exec/cmd_executor.c:58-70 | A buffer captures the prefix of its stream that fits before the terminator. |
| CmdExecutor.Stream.AppendCapped | src/exec/cmd_executor.c:58-70 | Keeps the captured prefix, and marks truncation exactly when the stream is longer than the buffer holds. |
| CmdExecutor.Stream.Drain | src/exec/cmd_executor.c:81-107 | Reads until the pipe would block, closes it at its end or on an error, and keeps the count of open pipes. |
| CmdExecutor.DrainOne | src/exec/cmd_executor.c:456-472 | Draining one pipe leaves every other stream alone. |
| CmdExecutor.DrainReady | src/exec/cmd_executor.c:456-472 | All reported pipes are drained; the count of open pipes stays exact. |
| CmdExecutor.CheckDeadlines | src/exec/cmd_executor.c:474-487 | Kills exactly the children past their deadline with an open pipe. |
| CmdExecutor.Round | src/exec/cmd_executor.c:428-488 | One turn of the loop keeps every stream, every flag and the count what the polls determine. |
| CmdExecutor.RunBatch | src/exec/cmd_executor.c:380-491 | For every interleaving of polls the buffers hold the captured prefixes of the streams, every flag is what the polls determine, and polling goes on until a poll fails or every pipe has come to its end, and no longer. |
| CmdExecutor.PollTimeout | src/exec/cmd_executor.c:330-354 | The time to sleep is that of the soonest deadline of a live child, rounded up and capped, and -1 exactly without one. |
| CmdExecutor.SplitWs | src/exec/cmd_executor.c:26-48 | The words of a line, in order, terminated in place, as many as there is room for. |
| CommandForms.WordsAre | src/exec/cmd_executor.c:26-48 | The words of a line are its maximal runs without blank and tab, all of them, in order. |
| Device.Device.AddChannel | src/device/device.c:40-72 | Refuses a full table, a bad range or a taken name; the table keeps unique names and safe values in range, and the new channel starts with the device's stamp. |
| Device.Device.Load | src/device/device.c:245-293 | Adds channels until the first bad form and says which one it is. |
| Device.Device.Read | src/device/device.c:356-390 | A value is returned only when it is in the channel's range, and only then counts as contact by a read. |
| Device.ReadStatusIff | include/geistshell/device.h:272-274 | The documented status of a read is given exactly when the output is a number or the program failed. |
| Device.Device.Write | src/device/device.c:392-434 | A read-only channel is never driven: it is refused exactly then as a policy denial, and a refused write sends nothing, records no contact and moves no stamp. Only values in the range of a writable channel are sent, and contact is recorded for that channel alone, only when the program answers well. |
| Device.WriteStatusMeans | src/device/device.c:392-434 | A write is refused for an unknown channel, a read-only one or a value out of range, in this order, and fails exactly when its program does or acknowledges another number. |
| Device.ReadStatusMeans | src/device/device.c:356-390 | What a read may answer, and exactly when. |
| Device.AddStatusMeans | src/device/device.c:40-72 | A channel is refused exactly for an empty name or program, an empty range, an actuator's safe value outside it, a taken name, or a full table. |
| Device.SafeCommandsAre | src/device/device.c:494-510 | The safe values of all writable channels are sent, each once and in table order, and nothing else. |
| Device.SafeStateOk | src/device/device.c:494-510 | Safe state succeeds exactly when no writable channel's program fails or acknowledges another number. |
| Device.ReadingsAre | src/device/device.c:524-592 | A reading is known exactly when the program gives a number in range. |
| Device.Device.ArmWatchdog | src/device/device.c:436-451 | Arming stamps the device and all channels and forgets earlier contacts. |
| Device.Device.WatchdogCheck | src/device/device.c:453-492 | Folds in the contacts since the last call, then judges the device and every writable channel. |
| Device.Device.SafeState | src/device/device.c:494-510 | Every writable channel is driven to its safe value once, in table order, whatever fails; the first failure is returned. |
| Device.Device.Sample | src/device/device.c:524-592 | One reading per channel in table order, known only when in range, and contact by a read for exactly the channels that answered so. |
| Device.SafeWriteStatus | src/device/device.c:494-510 | A safe write is never refused before it runs. |
| Device.FirstFailureIsFirst | src/device/device.c:494-510 | The status returned is that of the first channel that failed. |
| Device.StampsBounded | src/device/device.c:453-492 | A channel's stamp never passes the device's, and the device's never the clock. |
| Device.ExpiredIffSilent | src/device/device.c:453-492 | An armed watchdog reports expired exactly when the device or some writable channel has been silent for longer than the timeout. |
| Device.ExpiredIsSticky | src/device/device.c:453-492 | Expired persists until a transaction succeeds or the watchdog is armed anew. |
| Device.ContactsDoNotLeak | src/device/device.c:383-389 | Contact on one channel never moves another's stamp. |
| Device.FirstCheckAfterAdd | src/device/device.c:64-69 | A channel added changes the next verdict only if it is writable, contact was not folded in yet when it came, and the stamp it takes over is overdue by then. |
| Device.StampIsWriteOrRead | src/device/device.c:453-466 | A channel's stamp is never earlier than that of its writes, and where it is later it is the time of the last check that folded in reads alone. |
| Device.FedByWritesIff | include/geistshell/device.h:253-259 | A channel is fed by writes and armings alone exactly when no check since the last of these folded in a read. |
| Device.DocumentedVerdictIff | include/geistshell/device.h:253-259 | Expired is never reported against the documented rule, and the rule is kept except exactly when the device is in contact, the writes to some writable channel are overdue, and reads keep every such channel alive. |
| Device.ReadsHideSilentActuator | src/device/device.c:383-389 | A concrete actuator that is read, never written to, and reported alive for ever. |
| ContextView.SortIsSorted | src/context/context.c:94-125 | Sorting is by the order and keeps all candidates. |
| ContextView.InsertIntoTake | src/context/context.c:102-125 | Only the first k of a sorted list can influence the first k after an insertion. |
| ContextView.TakenAreBest | src/context/context.c:287-347 | Nothing left out comes before anything kept. |
| ContextForms.KeptAreHighest | src/context/context.c:94-125 | The kept references have the highest keys, equal keys by index, and nothing left out is higher. |
| ContextForms.CandidatesAreLive | src/context/context.c:287-323 | The candidates are the references of the live items. |
| ContextView.InsertRef | src/context/context.c:102-125 | The bounded in-place insertion is insertion into the sorted list, cut at the capacity. |
| ContextView.Select | src/context/context.c:287-323 | A view holds exactly the first k live candidates of the full sorted order, and the flag says whether there were more. |
| ContextView.ReverseRefs | src/context/context.c:232-239 | Reverses the references in place. |
| ContextView.SelectJournal | src/context/context.c:325-347 | The journal view holds the k most recent records, oldest first. |
| ContextRender.RenderState.AppendChar | src/context/context.c:359-365 | The buffer keeps as much of the ideal text as fits before the NUL, and the full length is counted. |
| ContextRender.RenderState.AppendSpan | src/context/context.c:370-379 | The same for a block. |
| ContextRender.RenderState.AppendNumber | src/context/context.c:390-398 | Appends the decimal digits of a 64-bit number. |
| ContextRender.RenderState.AppendQuoted | src/context/context.c:487-505 | Appends the quoted form of a text, the one that reads back as one token. |
| ContextRender.RenderStanding | src/context/context.c:775-801 | Contract, directive, profile, goal, tools and examples in this order, each only if it is there. |
| ContextRender.Render | src/context/context.c:755-830 | The buffer is the prefix of the full text that fits, terminated; the status is OK exactly when the whole text fits; the length needed and that of the constant part are returned. |
| ContextForms.FullTextIs | src/context/context.c:507-566 | The text, part by part: contract, directive, profile, goal, tools and examples, each there unless empty, then one line a budget with what is left of it, and the blocks behind. |
| ContextForms.QuoteIs | src/context/context.c:487-505 | Quotes, backslashes, newlines, returns and tabs are written with a backslash, and everything else as it is. |
| ContextForms.DecIs | src/dsl/sexpr.c:435-443 | A number is written in as few decimal digits as say it. |
| ContextRender.PrefixIndependentOfTick | src/context/context.c:805-811 | Two renders of a run agree on the length of the constant part and on every byte of it, whatever the per-tick sources are, also when it is cut off. |
| Eval.AddSorted | src/eval/eval.c:245-268 | Insertion keeps the set sorted, adds exactly the token unless it is there or 16 are, and drops none. |
| Eval.SortedUnique | src/eval/eval.c:245-268 | A sorted list is determined by its elements. |
| Eval.ShapeMeans | src/eval/eval.c:198-268 | The shape has no duplicates and at most 16 tokens, and has all of them exactly when at most 16 are distinct. |
| Eval.SameElementsSameShape | src/eval/eval.c:198-268 | Up to 16 distinct tokens, order and repetition do not matter. |
| Eval.OrderIrrelevantIff | src/eval/eval.c:262-264 | Every reordering has the same shape exactly when at most 16 tokens are distinct; beyond that the first ones win. |
| Eval.CollapseIsFirstRuns | src/eval/eval.c:230-243 | The sequence key is the first 16 runs of equal tokens. |
| Eval.StutterIrrelevant | src/eval/eval.c:230-243 | Repeating a step right away does not change the sequence key. |
| Eval.JoinInjective | src/eval/eval.c:270-287 | A key determines its tokens, as long as none contains the joiner. |
| KeyForms.LessIsBefore | src/eval/eval.c:245-268 | Tokens are ordered by their first difference, and a token comes before its continuations. |
| KeyForms.SetTokensAre | src/eval/eval.c:245-268 | A set key has the first sixteen different tokens in ascending order, and all of them while there are no more. |
| KeyForms.SequenceTokensAre | src/eval/eval.c:230-243 | A sequence key has the first sixteen runs. |
| KeyForms.RunsJoin | src/eval/eval.c:230-243 | The runs of two lists are those of both, with one less if the seam is inside a run. |
| KeyForms.KeyIs | src/eval/eval.c:270-287 | A key is its tokens one after the other with one joiner between two, and nothing else. |
| KeyForms.ValidReplyAdds | src/eval/eval.c:203-228 | A valid reply adds its kind, with a colon and its capability if that is not empty, as far as 48 characters reach; a finish adds nothing. |
| KeyForms.OtherReplyAdds | src/eval/eval.c:203-218 | A reply of more than 256 tokens adds nothing, and any other that is not valid adds local_shell. |
| KeyForms.CapabilityAdds | src/eval/eval.c:343-427 | An enabled capability adds the action it stands for with its name; a disabled one nothing. |
| KeyForms.PoliciesJoin | src/eval/eval.c:361-427 | The tokens of a policy come in the order of its capabilities. |
| Keys.TokenIff | src/eval/eval.c:219-228 | Two actions have the same token exactly when they are of one kind and their capabilities agree as far as the 48 bytes of a token reach. |
| Keys.TokensOfActions | src/eval/eval.c:203-228 | The tokens of a script are those of what its replies do. |
| Keys.KeysOfReplies | src/eval/eval.c:198-290 | The key of a script, in either mode, is that of what its replies do. |
| Keys.SetKeyIff | src/eval/eval.c:198-290 | Without the joiner two trajectories have the same set-mode key exactly when their first 16 different actions are the same, in whatever order, each clipped to its token. |
| Keys.SameKeyIff | src/eval/eval.c:198-290 | Two trajectories of at most 16 different actions, none with the joiner and none longer than its token, have the same set-mode key exactly when they take the same actions. |
| Keys.SequenceKeyIff | src/eval/eval.c:230-290 | Without the joiner two trajectories have the same sequence-mode key exactly when the first 16 runs of equal actions are the same, each clipped to its token. |
| Keys.LongNamesCollide | src/eval/eval.c:219-228 | Two actions that differ behind the end of the token, whose trajectories share both keys. |
| Keys.KeysCollide | src/eval/eval.c:270-287 | With the joiner in a capability two different sets of actions share a key. |
| Keys.CollapseUnchangedIff | src/eval/eval.c:230-243 | One more token anywhere leaves the first 16 runs as they were exactly when 16 runs come before it, it repeats a neighbour, or it splits a run behind which the two alternate until 16 runs are full. |
| PrintedReplies.PrintedForm | src/dsl/sexpr.c:25-62 | What a printed tree says to the readers behind the parser: the same words and lists, and texts with their escapes. |
| PrintedReplies.PrintedReads | src/dsl/sexpr.c:366-392 | A printed tree of at most 256 tokens parses as one form, the one it says. |
| PrintedReplies.RecommendSays | src/actor/recommendation.c:239-488 | A printed recommendation says the table that its fields make up. |
| PrintedReplies.ReplyDoes | src/eval/eval.c:203-228 | A printed simulator reply with any capability is valid and does that action; a printed finish does nothing. |
| PrintedReplies.LongRepliesShareKeys | src/eval/eval.c:219-290 | Two valid replies with different capabilities that share both keys. |
| PrintedReplies.JoinedRepliesShareKey | src/eval/eval.c:270-290 | A valid reply with the joiner in its capability that shares the set-mode key of two others. |
| PrintedReplies.FinishReply | src/eval/eval.c:211-218 | A valid finish that adds no token. |
| Eval.ShapeUnchangedIff | src/eval/eval.c:245-268 | One more token anywhere leaves the shape as it was exactly when the shape has it anyway or was full before. |
| Eval.ReplyTokenMeans | src/eval/eval.c:215-228 | A valid reply adds its kind with its capability, or nothing if it finishes. |
| Eval.FinishAddsNothing | src/eval/eval.c:211-218 | A finish reply leaves every key as it was, wherever it comes. |
| Eval.RejectedToken | src/eval/eval.c:207-228 | A rejected reply adds the token of a shell command without capability. |
| Eval.AddsNothingIff | src/eval/eval.c:207-218 | A reply adds nothing exactly when it is too long to parse or finishes. |
| Eval.UnparseableAdds | src/eval/eval.c:207-228 | A concrete reply that does not parse and adds a token. |
| Eval.RejectedUnchangedIff | src/eval/eval.c:198-268 | A rejected reply anywhere leaves the shape as it was exactly when the shape has a bare local_shell anyway or was full before. |
| Eval.RejectedKeyIff | src/eval/eval.c:198-290 | The same for the set-mode key, if no token contains the joiner. |
| Keys.RejectedRunsIff | src/eval/eval.c:230-290 | A rejected reply leaves the sequence, and without the joiner its key, as it was exactly when a bare local_shell is not seen at its place. |
| Eval.TokenOf | src/eval/eval.c:203-228 | The token of a reply as the buffers give it: none if it is too long to parse, a bare local_shell if it is rejected, else its kind with its capability. |
| Eval.AddInPlace | src/eval/eval.c:245-267 | The insertion in the fixed array is that into the sorted set. |
| Eval.InsertAt | src/eval/eval.c:265-268 | Shifts the tail one cell up and fills the gap. |
| Eval.JoinInto | src/eval/eval.c:270-290 | A key that fits with its NUL is written whole, otherwise the length is 0 and the status an error. |
| Eval.ShapeFromScript | src/eval/eval.c:198-298 | The key of a script: in set mode the tokens of its shape joined by plus signs, in sequence mode its runs joined by greater-than signs, or Limit when it does not fit. |
| Eval.ShapeFromPolicy | src/eval/eval.c:361-427 | The key of a policy's enabled capabilities. |
| Eval.SameShapeIff | src/eval/eval.c:245-268 | Two token lists have the same shape exactly when their first 16 different tokens are the same, in whatever order. |
| Eval.PolicyMatchesScript | src/eval/eval.c:343-427 | A trajectory that uses exactly the enabled capabilities through their primary kinds has the policy's shape if these give at most 16 different tokens, and otherwise exactly when its first 16 are the policy's. |
| Eval.PolicyMatchesAllIff | src/eval/eval.c:343-427 | It has that shape in every order of its replies exactly when there are at most 16 different tokens. |
| Eval.NamelessNeverMatches | src/eval/eval.c:222-228 | A capability with an empty name is in the policy's key, but no reply has its token. |
| Eval.BestAttempt | src/cli/main.c:2830-2862 | Nothing is better than the chosen attempt and it is better than every earlier one; the search stops at the first that cannot be beaten. One that meets the expectation is chosen whenever there is one. |
| Eval.JudgeMeans | src/eval/eval.c:49-73 | A run passes exactly when it went through, ended as wanted in the wanted number of steps, and showed the marker; the first of these that fails names the outcome. |
| Eval.RankIsOrder | src/eval/eval.c:27-47 | A run that meets the expectation is better than a finished one, then out of steps, out of budget, denied, rejected, and an error last. |
| Eval.UnbeatableIs | src/cli/main.c:2853-2858 | The search stops exactly at a run that meets the expectation, or, without one, at a finished run. |
| Improve.Store.Commit | src/improve/improve.c:59-73 | Keeps a lesson saved for trial, or deletes its slug; the only error is a file that is there and cannot be removed, and then the lesson stays. |
| Improve.RevertRestoresIff | src/improve/improve.c:59-73 | Taking a trial back restores the store exactly when the slug was not there before. |
| Improve.Select | src/improve/improve.c:325-336 | The first of the highest scores; the incumbent wins ties, and 0 is returned without scores. |
| Improve.FittestIs | src/cli/main.c:4933-4973 | Of the lesson's own wording and three changed ones, of which those without text do not count, the first with the most passed cases is taken. |
| Improve.Evolve | src/cli/main.c:4933-4973 | The wording left in the store is the first of the highest rated that apply, and the operator and its score are returned. |
| Improve.CheckCase | src/cli/main.c:5155-5175 | The benefit proof looks at the lesson's own case in the right suite. |
| Improve.CheckGuards | src/cli/main.c:5176-5185 | The guards decide with and without the lesson, and the store ends with it. |
| Improve.JudgeLesson | src/cli/main.c:5145-5187 | A lesson is accepted exactly when it is worth keeping. |
| Improve.Setup.WorthyIff | src/cli/main.c:5145-5187 | Three things speak against a lesson and nothing else: fewer cases pass, a guard is lost, or its own case must be proven and does not pass. One that changes nothing is kept. |
| Improve.TryLesson | src/cli/main.c:5131-5217 | A lesson is kept exactly when it is worth it, with the fittest wording if one is searched for, and otherwise nothing is left under its slug. |
| Improve.FreshStep | src/cli/main.c:5131-5217 | With a new slug a refused lesson leaves the store as it was, and a kept one makes nothing worse. |
| Improve.TakenSlugLosesLesson | src/cli/main.c:5131-5217 | With a taken slug the old lesson is lost and the pass count carried along is no longer that of the store. |
| Improve.NoWorseTransitive | include/geistshell/improve.h:77-96 | No case fewer, no guard lost and nothing forgotten: this composes over kept lessons. |
| Improve.Setup.NothingRegresses | src/cli/main.c:5128-5218 | Over a whole run the pass count does not drop, no guard that passed at the start fails at the end, and nothing stored before is lost. |
| Improve.ImproveStore | src/cli/main.c:5128-5218 | With new, distinct slugs each candidate in turn is tried with its own or its fittest wording and stays exactly when it is worth it; the run stops early exactly at a suite that cannot be run, the pass count carried along is that of the current store, and nothing regresses. |

## Left out

- Null pointers: every pointer is there. The checks for null, and their status, are not modelled.
- The BLAKE3 compression function, its byte order and its cryptographic strength: a parameter.
- 64-bit wrap-around of clocks, deadlines and stamps: times are unbounded. Byte counters, `uint64` parsing, list
  spans and the signed device value do model their width.
- Node capacities above 2^32 - 1: an index would then equal the marker for no node.
- Positions in error reports of the schema validator, the run and budget loaders and the recommendation reader:
  only statuses and reject reasons are modelled.
- The contents of a configuration or of its error after a failed load, except for the budgets.
- Hash.Hasher.Final: the source may be given an output buffer that overlaps the state; here they are separate.
- CmdExecutor.RunBatch: a batch that needs more polls than are given is stopped at the last of them; starting,
  killing and reaping processes, resource limits and the path search are not modelled, and each request has its own
  non-empty buffers.
- Device.Device.Load: the form of a channel and its numbers are read elsewhere; a form that is no channel is given
  as such. Programs of channels are replies given from outside.
- ContextView.Select: ranks are given; the weights by kind and the scores as floating point are not modelled.
- ContextRender.Render: the wording of the contract and of the blocks behind the budgets is given as pieces of text.
- Improve.ImproveStore: suites and guards are functions of the store; failing saves, a failing delete in the loop,
  reports and the choice of candidates from failed cases are not modelled.
- Improve.TryLesson: its saves and deletes succeed, those of the search for a wording included.
- Eval.BestAttempt: the runs themselves are given; the verdict on each and the choice are modelled.
- Eval.ShapeFromScript: the buffer's contents after a key that does not fit are not stated.
- Journals and their verdicts, the policy gate and its file, the orchestrator and agent loop, the memory store's
  files, the grammar mask, machine state, telemetry, the shell executor's payloads, the chat screen and the command
  line: only headers or input and output.
- Names of enumerations, usage texts, HMAC and the host probe: each is a table or a call without a state to keep.
