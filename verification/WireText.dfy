/**
 * The texts that cross a boundary, with their scanners: SQL string literals and lists of them, and the
 * zero-padded numbers that watermarks and event ids are written as.
 */
module WireText {
  import opened Outcomes

  // ---- SQL string literals ---------------------------------------------------------------

  const QUOTE := '\''

  /** Every quote doubled. */
  function Escaped(value: string): string {
    if value == "" then ""
    else (if value[0] == QUOTE then [QUOTE, QUOTE] else [value[0]]) + Escaped(value[1..])
  }

  function Literal(value: string): string {
    [QUOTE] + Escaped(value) + [QUOTE]
  }

  /** The literals of a list, separated by a comma and a space. */
  function LiteralList(values: seq<string>): string {
    if values == [] then ""
    else if |values| == 1 then Literal(values[0])
    else Literal(values[0]) + ", " + LiteralList(values[1..])
  }

  /** A parenthesized list of literals, as `TAGS (...)` carries it. */
  function TagsClause(tags: seq<string>): string {
    "(" + LiteralList(tags) + ")"
  }

  datatype Scanned<T> = Scanned(value: T, rest: string)

  /** The part of a literal after its opening quote: section 5.3 of ISO/IEC 9075-2. */
  function ScanBody(text: string): Option<Scanned<string>> {
    if text == "" then None
    else if text[0] == QUOTE && (|text| == 1 || text[1] != QUOTE) then Some(Scanned("", text[1..]))
    else
      var tail := ScanBody(if text[0] == QUOTE then text[2..] else text[1..]);
      if tail == None then None else Some(Scanned([text[0]] + tail.value.value, tail.value.rest))
  }

  function ScanLiteral(text: string): Option<Scanned<string>> {
    if text != "" && text[0] == QUOTE then ScanBody(text[1..]) else None
  }

  function SkipSpaces(text: string): string {
    if text != "" && text[0] == ' ' then SkipSpaces(text[1..]) else text
  }

  lemma {:induction false} ScannedShrinks(text: string)
    ensures ScanBody(text).Some? ==> |ScanBody(text).value.rest| < |text|
    ensures |SkipSpaces(text)| <= |text|
  {
    if text != "" {
      if |text| > 1 {
        ScannedShrinks(text[2..]);
      }
      ScannedShrinks(text[1..]);
    }
  }

  /** Literals separated by commas, up to the closing parenthesis. */
  function ScanItems(text: string): Option<Scanned<seq<string>>>
    decreases |text|
  {
    var first := ScanLiteral(text);
    if first == None then None
    else
      var after := SkipSpaces(first.value.rest);
      if after == "" then None
      else if after[0] == ')' then Some(Scanned([first.value.value], after[1..]))
      else if after[0] != ',' then None
      else
        ScannedShrinks(text[1..]);
        ScannedShrinks(first.value.rest);
        ScannedShrinks(after[1..]);
        var others := ScanItems(SkipSpaces(after[1..]));
        if others == None then None
        else Some(Scanned([first.value.value] + others.value.value, others.value.rest))
  }

  function ScanTags(text: string): Option<Scanned<seq<string>>> {
    if text == "" || text[0] != '(' then None
    else if |text| > 1 && text[1] == ')' then Some(Scanned([], text[2..]))
    else ScanItems(text[1..])
  }

  predicate StartsWithQuote(text: string) {
    text != "" && text[0] == QUOTE
  }

  lemma OneMoreChar(c: char, tail: string, value: string, rest: string)
    requires ScanBody(tail) == Some(Scanned(value, rest))
    ensures ScanBody((if c == QUOTE then [QUOTE, QUOTE] else [c]) + tail) == Some(Scanned([c] + value, rest))
  {}

  lemma EndOfBody(text: string, rest: string)
    requires text == [QUOTE] + rest && !StartsWithQuote(rest)
    ensures ScanBody(text) == Some(Scanned("", rest))
  {
    assert text[1..] == rest;
  }

  lemma {:induction false} BodyScans(value: string, rest: string, text: string)
    requires !StartsWithQuote(rest) && text == Escaped(value) + [QUOTE] + rest
    ensures ScanBody(text) == Some(Scanned(value, rest))
  {
    if value == "" {
      assert text == [QUOTE] + rest;
      EndOfBody(text, rest);
    } else {
      var inner, first := Escaped(value[1..]), if value[0] == QUOTE then [QUOTE, QUOTE] else [value[0]];
      assert Escaped(value) == first + inner;
      var tail := inner + [QUOTE] + rest;
      assert text == first + tail;
      BodyScans(value[1..], rest, tail);
      OneMoreChar(value[0], tail, value[1..], rest);
      assert value == [value[0]] + value[1..];
    }
  }

  lemma {:induction false} ScannedBody(text: string)
    requires ScanBody(text).Some?
    ensures var s := ScanBody(text).value; text == Escaped(s.value) + [QUOTE] + s.rest && !StartsWithQuote(s.rest)
  {
    var s := ScanBody(text).value;
    if text[0] == QUOTE && (|text| == 1 || text[1] != QUOTE) {
    } else {
      var tail := if text[0] == QUOTE then text[2..] else text[1..];
      ScannedBody(tail);
      assert s.value[1..] == ScanBody(tail).value.value;
      assert text[0] == QUOTE ==> text == [QUOTE, QUOTE] + tail;
      assert text[0] != QUOTE ==> text == [text[0]] + tail;
    }
  }

  /**
   * A text scans to a value and a rest exactly when it is that value's literal and then the rest, so no
   * value, whatever quotes it holds, can end its literal early or run past its end.
   */
  lemma LiteralExact(text: string, value: string, rest: string)
    ensures ScanLiteral(text) == Some(Scanned(value, rest)) <==> text == Literal(value) + rest && !StartsWithQuote(rest)
  {
    if ScanLiteral(text) == Some(Scanned(value, rest)) {
      ScannedBody(text[1..]);
      assert text == [QUOTE] + text[1..];
    }
    if text == Literal(value) + rest && !StartsWithQuote(rest) {
      assert text[1..] == Escaped(value) + [QUOTE] + rest;
      BodyScans(value, rest, text[1..]);
    }
  }

  lemma NextItem(text: string, tag: string, others: string, tags: seq<string>, rest: string)
    requires ScanLiteral(text) == Some(Scanned(tag, ", " + others))
    requires StartsWithQuote(others) && ScanItems(others) == Some(Scanned(tags, rest))
    ensures ScanItems(text) == Some(Scanned([tag] + tags, rest))
  {
    var after := ", " + others;
    assert SkipSpaces(after) == after;
    assert after[1..] == " " + others;
    assert (" " + others)[1..] == others;
    assert SkipSpaces(" " + others) == SkipSpaces(others) == others;
  }

  lemma {:induction false} ItemsScan(tags: seq<string>, rest: string)
    requires tags != []
    ensures ScanItems(LiteralList(tags) + ")" + rest) == Some(Scanned(tags, rest))
  {
    var text := LiteralList(tags) + ")" + rest;
    if |tags| == 1 {
      LiteralExact(text, tags[0], ")" + rest);
      assert text == Literal(tags[0]) + (")" + rest);
      assert (")" + rest)[1..] == rest;
      assert tags == [tags[0]];
    } else {
      var others := LiteralList(tags[1..]) + ")" + rest;
      assert text == Literal(tags[0]) + (", " + others);
      LiteralExact(text, tags[0], ", " + others);
      ItemsScan(tags[1..], rest);
      NextItem(text, tags[0], others, tags[1..], rest);
      assert tags == [tags[0]] + tags[1..];
    }
  }

  /** Any tag list, rendered and scanned back, is the same list, and scanning stops right behind it. */
  lemma TagsRoundTrip(tags: seq<string>, rest: string)
    ensures ScanTags(TagsClause(tags) + rest) == Some(Scanned(tags, rest))
  {
    var text := TagsClause(tags) + rest;
    if tags == [] {
      assert text[2..] == rest;
    } else {
      assert LiteralList(tags)[0] == QUOTE;
      assert text[1..] == LiteralList(tags) + ")" + rest;
      ItemsScan(tags, rest);
    }
  }

  /** Different tag lists never render to the same text, nor one to the beginning of another. */
  lemma TagsPrefixFree(a: seq<string>, b: seq<string>)
    requires TagsClause(a) <= TagsClause(b)
    ensures a == b
  {
    var rest := TagsClause(b)[|TagsClause(a)|..];
    TagsRoundTrip(a, rest);
    TagsRoundTrip(b, "");
    assert TagsClause(b) + "" == TagsClause(b) == TagsClause(a) + rest;
  }

  // ---- Numbers as text -------------------------------------------------------------------

  function Digit(d: nat): char
    requires d < 10
  {
    ('0' as int + d) as char
  }

  function Decimal(n: nat): string {
    (if n < 10 then "" else Decimal(n / 10)) + [Digit(n % 10)]
  }

  function Zeros(count: nat): string {
    seq(count, _ => '0')
  }

  /** Padded with zeros to a width; a longer number keeps all its digits. */
  function Padded(n: nat, width: nat): string {
    Zeros(if |Decimal(n)| < width then width - |Decimal(n)| else 0) + Decimal(n)
  }

  const WATERMARK_WIDTH := 12
  const EVENT_ID_WIDTH := 8

  function WatermarkText(n: nat): string {
    Padded(n, WATERMARK_WIDTH)
  }

  function EventIdText(n: nat): string {
    "evt-" + Padded(n, EVENT_ID_WIDTH)
  }

  predicate IsDigit(c: char) {
    '0' <= c <= '9'
  }

  predicate IsSpace(c: char) {
    c == ' ' || 9 <= c as int <= 13
  }

  function StripLeft(s: string): string {
    if s != "" && IsSpace(s[0]) then StripLeft(s[1..]) else s
  }

  function StripRight(s: string): string {
    if s != "" && IsSpace(s[|s| - 1]) then StripRight(s[..|s| - 1]) else s
  }

  /** Digits, where one underscore may stand between two digits. */
  function DigitsValue(s: string): Option<nat>
    decreases |s|
  {
    if s == "" || !IsDigit(s[|s| - 1]) then None
    else
      var digit := s[|s| - 1] as int - '0' as int;
      if |s| == 1 then Some(digit)
      else
        var init := if s[|s| - 2] == '_' then s[..|s| - 2] else s[..|s| - 1];
        var before := DigitsValue(init);
        if before == None then None else Some(before.value * 10 + digit)
  }

  /** The integer a text stands for: surrounding space and one sign allowed; anything else is malformed. */
  function ParseWatermark(value: Option<string>): Result<int, Option<string>> {
    if value == None then Err(value)
    else
      var s := StripLeft(StripRight(value.value));
      var signed := s != "" && (s[0] == '-' || s[0] == '+');
      var digits := DigitsValue(if signed then s[1..] else s);
      if digits == None then Err(value)
      else
        var magnitude: int := digits.value;
        Ok(if signed && s[0] == '-' then -magnitude else magnitude)
  }

  /** What the digit grammar allows, said of the whole text at once. */
  ghost predicate DigitGroups(s: string) {
    && s != "" && IsDigit(s[0]) && IsDigit(s[|s| - 1])
    && (forall i :: 0 <= i < |s| ==> IsDigit(s[i]) || s[i] == '_')
    && (forall i :: 0 < i < |s| && s[i] == '_' ==> s[i - 1] != '_')
  }

  /** A text has a value exactly when it is digit groups joined by single underscores. */
  lemma {:induction false} DigitsExact(s: string)
    ensures DigitsValue(s).Some? <==> DigitGroups(s)
    decreases |s|
  {
    if |s| > 1 && IsDigit(s[|s| - 1]) {
      var init := if s[|s| - 2] == '_' then s[..|s| - 2] else s[..|s| - 1];
      DigitsExact(init);
      if DigitGroups(s) {
        assert init != "";
        assert s[|init| - 1] == init[|init| - 1];
        assert forall i :: 0 <= i < |init| ==> init[i] == s[i];
      }
      if DigitGroups(init) {
        assert forall i :: 0 <= i < |init| ==> s[i] == init[i];
        assert forall i :: |init| <= i < |s| - 1 ==> s[i] == '_';
      }
    }
  }

  lemma OneMoreDigit(init: string, value: nat, d: nat)
    requires d < 10 && DigitsValue(init) == Some(value)
    ensures DigitsValue(init + [Digit(d)]) == Some(value * 10 + d)
  {}

  lemma {:induction false} ZerosValue(count: nat)
    requires count > 0
    ensures DigitsValue(Zeros(count)) == Some(0)
  {
    if count > 1 {
      ZerosValue(count - 1);
      OneMoreDigit(Zeros(count - 1), 0, 0);
      assert Zeros(count) == Zeros(count - 1) + [Digit(0)];
    }
  }

  lemma {:induction false} DecimalDigits(n: nat)
    ensures forall i :: 0 <= i < |Decimal(n)| ==> IsDigit(Decimal(n)[i])
  {
    if n >= 10 {
      DecimalDigits(n / 10);
    }
  }

  lemma LastDigit(zeros: string, n: nat, text: string)
    requires zeros == "" || DigitsValue(zeros) == Some(0)
    requires n < 10 && text == zeros + [Digit(n)]
    ensures DigitsValue(text) == Some(n)
  {
    if zeros != "" {
      OneMoreDigit(zeros, 0, n);
    } else {
      assert text == [Digit(n)];
    }
  }

  lemma {:induction false} PaddedValue(zeros: string, n: nat, text: string)
    requires zeros == "" || DigitsValue(zeros) == Some(0)
    requires text == zeros + Decimal(n)
    ensures DigitsValue(text) == Some(n)
  {
    if n >= 10 {
      var tens, d := n / 10, n % 10;
      var init := zeros + Decimal(tens);
      PaddedValue(zeros, tens, init);
      assert Decimal(n) == Decimal(tens) + [Digit(d)];
      assert text == init + [Digit(d)];
      OneMoreDigit(init, tens, d);
    } else {
      assert Decimal(n) == [Digit(n)];
      LastDigit(zeros, n, text);
    }
  }

  /** The text of a number at any width reads back as the number, however many digits it has. */
  lemma PaddedRoundTrip(n: nat, width: nat)
    ensures ParseWatermark(Some(Padded(n, width))) == Ok(n)
    ensures |Padded(n, width)| >= width
    ensures forall i :: 0 <= i < |Padded(n, width)| ==> IsDigit(Padded(n, width)[i])
  {
    var zeros := if |Decimal(n)| < width then width - |Decimal(n)| else 0;
    if zeros > 0 {
      ZerosValue(zeros);
    }
    PaddedValue(Zeros(zeros), n, Padded(n, width));
    DecimalDigits(n);
    var s := Padded(n, width);
    assert IsDigit(s[0]) && IsDigit(s[|s| - 1]);
    assert StripRight(s) == s && StripLeft(s) == s;
  }

  /** An integer as text, with a sign if it is negative. */
  function Signed(x: int): string {
    if x < 0 then "-" + Decimal(-x) else Decimal(x)
  }

  /** It reads back as the integer. */
  lemma SignedRoundTrip(x: int)
    ensures ParseWatermark(Some(Signed(x))) == Ok(x)
  {
    var zeros, n := "", if x < 0 then -x else x;
    PaddedValue(zeros, n, Decimal(n));
    DecimalDigits(n);
    DigitsRead(Decimal(n), n, x, Signed(x));
  }

  lemma DigitsRead(digits: string, n: nat, x: int, text: string)
    requires DigitsValue(digits) == Some(n) && IsDigit(digits[0])
    requires if x < 0 then x + n == 0 && text == "-" + digits else x == n && text == digits
    ensures ParseWatermark(Some(text)) == Ok(x)
  {
    assert IsDigit(digits[|digits| - 1]) && text[|text| - 1] == digits[|digits| - 1];
    assert x < 0 ==> text[0] == '-' && text[1..] == digits;
    assert StripRight(text) == text && StripLeft(text) == text;
  }

  /** Space around a watermark does not change what it stands for. */
  lemma {:induction false} SpaceIgnored(n: nat, width: nat, before: string, after: string)
    requires forall i :: 0 <= i < |before| ==> IsSpace(before[i])
    requires forall i :: 0 <= i < |after| ==> IsSpace(after[i])
    ensures ParseWatermark(Some(before + Padded(n, width) + after)) == Ok(n)
  {
    PaddedRoundTrip(n, width);
    var s := Padded(n, width);
    assert s != "" && IsDigit(s[|s| - 1]);
    StripsRight(before + s, after);
    StripsLeft(before, s);
  }

  lemma {:induction false} StripsRight(s: string, space: string)
    requires forall i :: 0 <= i < |space| ==> IsSpace(space[i])
    requires s != "" && !IsSpace(s[|s| - 1])
    ensures StripRight(s + space) == s
  {
    if space == "" {
      assert s + space == s;
    } else {
      assert (s + space)[..|s + space| - 1] == s + space[..|space| - 1];
      StripsRight(s, space[..|space| - 1]);
    }
  }

  lemma {:induction false} StripsLeft(space: string, s: string)
    requires forall i :: 0 <= i < |space| ==> IsSpace(space[i])
    requires s != "" && !IsSpace(s[0])
    ensures StripLeft(space + s) == s
  {
    if space == "" {
      assert space + s == s;
    } else {
      assert (space + s)[1..] == space[1..] + s;
      StripsLeft(space[1..], s);
    }
  }

  /** Event ids and watermarks are numbers in disguise: equal texts are equal numbers. */
  lemma TextsInjective(m: nat, n: nat)
    ensures EventIdText(m) == EventIdText(n) <==> m == n
    ensures WatermarkText(m) == WatermarkText(n) <==> m == n
  {
    PaddedRoundTrip(m, EVENT_ID_WIDTH);
    PaddedRoundTrip(n, EVENT_ID_WIDTH);
    PaddedRoundTrip(m, WATERMARK_WIDTH);
    PaddedRoundTrip(n, WATERMARK_WIDTH);
    assert EventIdText(m)[4..] == Padded(m, EVENT_ID_WIDTH);
    assert EventIdText(n)[4..] == Padded(n, EVENT_ID_WIDTH);
  }
}
