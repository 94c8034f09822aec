/** Decimal numbers and the bounded writer of src/dsl/sexpr.c. */
module SexprText {
  import opened Statuses
  import opened SexprLex

  const UINT64_MAX: nat := 0xFFFF_FFFF_FFFF_FFFF

  predicate IsDigit(c: char) {
    '0' <= c <= '9'
  }

  function Digit(c: char): nat
    requires IsDigit(c)
  {
    (c - '0') as nat
  }

  predicate AllDigits(text: string) {
    forall c | c in text :: IsDigit(c)
  }

  /** The number a run of decimal digits denotes. */
  function Value(digits: string): nat
    requires AllDigits(digits)
  {
    if digits == [] then 0 else 10 * Value(digits[..|digits| - 1]) + Digit(digits[|digits| - 1])
  }

  /** The longest prefix of digits. */
  function DigitRun(text: string): (run: string)
    ensures run <= text && AllDigits(run)
    ensures |run| < |text| ==> !IsDigit(text[|run|])
  {
    if text == [] || !IsDigit(text[0]) then [] else [text[0]] + DigitRun(text[1..])
  }

  lemma {:induction false} ValueGrows(digits: string, k: nat)
    requires AllDigits(digits) && k <= |digits|
    ensures Value(digits[..k]) <= Value(digits)
    decreases |digits|
  {
    if k < |digits| {
      var front := digits[..|digits| - 1];
      assert front[..k] == digits[..k];
      ValueGrows(front, k);
    } else {
      assert digits[..k] == digits;
    }
  }

  /** What parsing a number gives: the leading digits decide about overflow, anything after
      them is a format error. */
  function NumberStatus(text: string): Status {
    if Value(DigitRun(text)) > UINT64_MAX then Overflow
    else if DigitRun(text) != text then Format
    else Ok
  }

  // ---- Numbers, digit by digit ----------------------------------------------------------------

  predicate Digits(text: string) {
    forall k | 0 <= k < |text| :: '0' <= text[k] <= '9'
  }

  /** Each digit counts by its place. */
  function Positional(text: string): nat
    requires Digits(text)
  {
    if text == [] then 0
    else
      var digit: nat := text[0] as int - '0' as int;
      digit * PowerOfTen(|text| - 1) + Positional(text[1..])
  }

  lemma {:induction false} PositionalEnd(text: string)
    requires Digits(text) && text != []
    ensures var n := |text| - 1;
            Positional(text) == 10 * Positional(text[..n]) + (text[n] as int - '0' as int)
  {
    var n := |text| - 1;
    if n == 0 {
      assert text[..n] == [] && text[1..] == [];
      assert PowerOfTen(0) == 1;
    } else {
      PositionalEnd(text[1..]);
      assert text[1..][..n - 1] == text[..n][1..] && text[1..][n - 1] == text[n] && text[..n][0] == text[0];
      var d, inner := text[0] as int - '0' as int, Positional(text[..n][1..]);
      assert Positional(text) == d * PowerOfTen(n) + Positional(text[1..]);
      assert Positional(text[..n]) == d * PowerOfTen(n - 1) + inner;
      hide Positional;
      TimesTen(d, n);
    }
  }

  lemma TimesTen(d: int, n: nat)
    requires n > 0
    ensures d * PowerOfTen(n) == 10 * (d * PowerOfTen(n - 1))
  {
    assert d * (10 * PowerOfTen(n - 1)) == 10 * (d * PowerOfTen(n - 1));
  }

  lemma {:induction false} ValueIsPositional(text: string)
    requires Digits(text)
    ensures AllDigits(text) && Value(text) == Positional(text)
  {
    if text != [] {
      PositionalEnd(text);
      ValueIsPositional(text[..|text| - 1]);
      hide Positional;
    }
  }

  /** A number of the language: only digits, and at most the largest 64-bit one. */
  predicate Number(text: string) {
    Digits(text) && Positional(text) <= 18446744073709551615
  }

  /** Which texts are numbers, and what is wrong with the others: the digits at the front decide first. */
  lemma {:induction false} NumberStatusMeans(text: string, n: nat)
    requires n <= |text| && Digits(text[..n]) && (n < |text| ==> !('0' <= text[n] <= '9'))
    ensures NumberStatus(text) == if Positional(text[..n]) > 18446744073709551615 then Overflow
                                  else if n < |text| then Format
                                  else Ok
    ensures NumberStatus(text) == Ok <==> Number(text)
    ensures Number(text) ==> AllDigits(text) && Value(text) == Positional(text)
  {
    LongestDigits(text, n);
    ValueIsPositional(text[..n]);
    if n == |text| {
      assert text[..n] == text;
    }
  }

  lemma {:induction false} LongestDigits(text: string, n: nat)
    requires n <= |text| && Digits(text[..n]) && (n < |text| ==> !('0' <= text[n] <= '9'))
    ensures DigitRun(text) == text[..n]
  {
    if n > 0 {
      assert text[..n][0] == text[0] && text[..n] == [text[0]] + text[1..][..n - 1];
      LongestDigits(text[1..], n - 1);
    }
  }

  lemma {:induction false} NumberIff(text: string)
    ensures NumberStatus(text) == Ok <==> Number(text)
    ensures Number(text) ==> AllDigits(text) && Value(text) == Positional(text)
  {
    var n := 0;
    while n < |text| && '0' <= text[n] <= '9'
      invariant n <= |text| && Digits(text[..n])
    {
      n := n + 1;
    }
    NumberStatusMeans(text, n);
  }

  method ParseUint64(input: string, span: Span) returns (status: Status, value: nat)
    ensures span.length == 0 || !span.In(input) ==> status == InvalidArg
    ensures span.length > 0 && span.In(input) ==> status == NumberStatus(span.Text(input))
    ensures status == Ok ==> AllDigits(span.Text(input)) && value == Value(span.Text(input)) <= UINT64_MAX
  {
    if span.length == 0 || !span.In(input) {
      return InvalidArg, 0;
    }
    ghost var text := span.Text(input);
    hide Value, DigitRun, Digit, NumberStatus;
    value := 0;
    ValueOfNothing(text);
    for i := 0 to span.length
      invariant ReadTo(text, i, value)
    {
      var c := input[span.offset + i];
      assert c == text[i];
      StatusAt(text, i, value);
      hide ReadTo;
      if c < '0' || c > '9' {
        return Format, 0;
      }
      var digit := (c - '0') as nat;
      RoomFor(value, digit);
      if value > (UINT64_MAX - digit) / 10 {
        return Overflow, 0;
      }
      value := value * 10 + digit;
    }
    StatusAtEnd(text, value);
    return Ok, value;
  }

  /** The first i bytes are digits and denote `value`. */
  predicate ReadTo(text: string, i: nat, value: nat) {
    i <= |DigitRun(text)| && value == Value(DigitRun(text)[..i]) <= UINT64_MAX
  }

  lemma RoomFor(value: nat, digit: nat)
    requires digit <= 9
    ensures value > (UINT64_MAX - digit) / 10 <==> value * 10 + digit > UINT64_MAX
  {
  }

  /** What the byte at i decides. */
  lemma {:induction false} StatusAt(text: string, i: nat, value: nat)
    requires i < |text| && ReadTo(text, i, value)
    ensures !IsDigit(text[i]) ==> NumberStatus(text) == Format
    ensures IsDigit(text[i]) ==>
      var next := value * 10 + (text[i] - '0') as nat;
      if next > UINT64_MAX then NumberStatus(text) == Overflow else ReadTo(text, i + 1, next)
  {
    ParseStep(text, i);
    hide Value, DigitRun;
  }

  lemma {:induction false} StatusAtEnd(text: string, value: nat)
    requires ReadTo(text, |text|, value)
    ensures NumberStatus(text) == Ok && AllDigits(text) && value == Value(text) <= UINT64_MAX
  {
    hide Value;
    var run := DigitRun(text);
    assert run == text && run[..|text|] == run;
  }

  lemma ValueOfNothing(text: string)
    ensures ReadTo(text, 0, 0)
  {
  }

  /** One more byte either extends the number or ends the run of digits. */
  lemma {:induction false} ParseStep(text: string, i: nat)
    requires i <= |DigitRun(text)| && i < |text|
    ensures var run := DigitRun(text);
            if IsDigit(text[i]) then
              i < |run| && Value(run[..i + 1]) == 10 * Value(run[..i]) + (text[i] - '0') as nat <= Value(run)
            else i == |run| && run[..i] == run
  {
    var run := DigitRun(text);
    hide DigitRun;
    if IsDigit(text[i]) {
      assert run[..i + 1][..i] == run[..i];
      ValueGrows(run, i + 1);
    } else {
      assert i == |run|;
    }
  }

  function DigitChar(d: nat): char
    requires d < 10
  {
    '0' + d as char
  }

  /** Decimal digits of a number, without leading zeros. */
  function Dec(v: nat): (digits: string)
    ensures AllDigits(digits) && |digits| > 0
  {
    if v < 10 then [DigitChar(v)] else Dec(v / 10) + [DigitChar(v % 10)]
  }

  /** Printing and parsing a number are inverse. */
  lemma {:induction false} ValueOfDec(v: nat)
    ensures Value(Dec(v)) == v
    ensures |Dec(v)| > 1 ==> Dec(v)[0] != '0'
  {
    if v >= 10 {
      ValueOfDec(v / 10);
      assert Dec(v)[..|Dec(v)| - 1] == Dec(v / 10);
    }
  }

  lemma {:induction false} DigitRunAll(digits: string)
    requires AllDigits(digits)
    ensures DigitRun(digits) == digits
  {
    if digits != [] {
      DigitRunAll(digits[1..]);
    }
  }

  lemma {:induction false} DecimalRoundTrip(v: nat)
    requires v <= UINT64_MAX
    ensures NumberStatus(Dec(v)) == Ok && Value(Dec(v)) == v && |Dec(v)| <= 20
  {
    ValueOfDec(v);
    DigitRunAll(Dec(v));
    DecLength(v, 20);
  }

  function PowerOfTen(n: nat): nat {
    if n == 0 then 1 else 10 * PowerOfTen(n - 1)
  }

  lemma {:induction false} DecLength(v: nat, n: nat)
    requires 0 < n && (v < PowerOfTen(n) || (n == 20 && v <= UINT64_MAX))
    ensures |Dec(v)| <= n
    decreases n
  {
    if n == 20 {
      assert PowerOfTen(10) == 1_00000_00000;
      assert PowerOfTen(20) == 1_00000_00000_00000_00000;
    }
    if v >= 10 {
      DecLength(v / 10, n - 1);
    }
  }

  /** Fill the buffer from the back; the digits start at the returned index. */
  method U64ToDec(value: nat, buffer: array<char>) returns (start: nat)
    requires value <= UINT64_MAX && buffer.Length == 21
    modifies buffer
    ensures start <= 20 && buffer[start..20] == Dec(value) && buffer[20] == '\0'
  {
    hide Dec, DigitChar, Value, NumberStatus;
    DecimalRoundTrip(value);
    start := 20;
    buffer[20] := '\0';
    var rest := value;
    ghost var digits := Dec(value);
    assert digits + buffer[20..20] == digits;
    // The source tests after the first digit; `more` is true exactly then.
    var more := true;
    while more
      invariant start <= 20 && buffer[20] == '\0'
      invariant if more then |Dec(rest)| <= start && Dec(rest) + buffer[start..20] == digits
                else buffer[start..20] == digits
      decreases more, rest
    {
      ghost var tail := buffer[start..20];
      DecSplits(rest, tail);
      start := start - 1;
      buffer[start] := DigitChar(rest % 10);
      assert buffer[start..20] == [DigitChar(rest % 10)] + tail;
      rest := rest / 10;
      more := rest != 0;
    }
  }

  lemma {:induction false} DecSplits(v: nat, tail: string)
    ensures if v < 10 then Dec(v) + tail == [DigitChar(v % 10)] + tail
            else |Dec(v / 10)| + 1 == |Dec(v)| && Dec(v) + tail == Dec(v / 10) + ([DigitChar(v % 10)] + tail)
  {
  }

  /** A bounded text buffer: an append that does not fit writes nothing and closes the writer. */
  class Writer {
    const buffer: array<char>
    var used: nat
    var truncated: bool

    ghost predicate Valid()
      reads this, buffer
    {
      if buffer.Length == 0 then used == 0 else used < buffer.Length && buffer[used] == '\0'
    }

    ghost function Contents(): string
      requires used <= buffer.Length
      reads this, buffer
    {
      buffer[..used]
    }

    constructor (buffer: array<char>)
      modifies buffer
      ensures Valid() && this.buffer == buffer && Contents() == [] && !truncated
    {
      this.buffer := buffer;
      used, truncated := 0, false;
      new;
      if buffer.Length > 0 {
        buffer[0] := '\0';
      }
    }

    method AppendText(text: string) returns (status: Status)
      requires Valid()
      modifies this, buffer
      ensures Valid()
      ensures Written(Contents(), truncated) == Append(old(Written(Contents(), truncated)), text, buffer.Length)
      ensures status == if buffer.Length == 0 then InvalidArg else if truncated then Limit else Ok
    {
      if used >= buffer.Length {
        truncated := true;
        return InvalidArg;
      }
      if truncated {
        return Limit;
      }
      if |text| > buffer.Length - used - 1 {
        truncated := true;
        return Limit;
      }
      ghost var before := buffer[..used];
      forall k | 0 <= k < |text| {
        buffer[used + k] := text[k];
      }
      assert buffer[..used] == before;
      assert buffer[..used + |text|] == before + text;
      used := used + |text|;
      buffer[used] := '\0';
      assert buffer[..used] == before + text;
      return Ok;
    }
  }

  datatype Written = Written(text: string, truncated: bool)

  function Append(w: Written, text: string, capacity: nat): Written {
    if w.truncated then w
    else if |w.text| + |text| + 1 > capacity then w.(truncated := true)
    else w.(text := w.text + text)
  }

  function AppendAll(texts: seq<string>, capacity: nat): Written {
    if texts == [] then Written([], false)
    else Append(AppendAll(texts[..|texts| - 1], capacity), texts[|texts| - 1], capacity)
  }

  function ConcatTexts(texts: seq<string>): string {
    if texts == [] then [] else ConcatTexts(texts[..|texts| - 1]) + texts[|texts| - 1]
  }

  /** After any run of appends the buffer holds exactly the appends before the first one
      that did not fit, and the flag tells whether there was one. */
  lemma {:induction false} WriterKeepsFittingPrefix(texts: seq<string>, capacity: nat) returns (k: nat)
    ensures k <= |texts| && (k > 0 ==> |ConcatTexts(texts[..k])| < capacity)
    ensures k < |texts| ==> |ConcatTexts(texts[..k + 1])| >= capacity
    ensures AppendAll(texts, capacity) == Written(ConcatTexts(texts[..k]), k < |texts|)
  {
    if texts == [] {
      k := 0;
    } else {
      var n, front := |texts| - 1, texts[..|texts| - 1];
      k := WriterKeepsFittingPrefix(front, capacity);
      assert front[..k] == texts[..k];
      if k < n {
        assert front[..k + 1] == texts[..k + 1];
      } else {
        assert texts[..n] == front && texts[..n + 1] == texts;
        if |ConcatTexts(texts)| < capacity {
          k := n + 1;
        }
      }
    }
  }
}
