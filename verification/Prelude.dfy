/** Small pieces of JavaScript's string and array vocabulary that several modules share. */
module Prelude {

  datatype Option<+T> = None | Some(value: T)

  function Min(a: int, b: int): int {
    if a <= b then a else b
  }

  function Max(a: int, b: int): int {
    if a <= b then b else a
  }

  ghost predicate Distinct<T>(items: seq<T>) {
    forall i, j :: 0 <= i < j < |items| ==> items[i] != items[j]
  }

  /** `parts.join('')`, and the flattening of an array of arrays. */
  function Flatten<T>(parts: seq<seq<T>>): seq<T> {
    if parts == [] then [] else parts[0] + Flatten(parts[1..])
  }

  lemma {:induction false} FlattenAppend<T>(a: seq<seq<T>>, b: seq<seq<T>>)
    ensures Flatten(a + b) == Flatten(a) + Flatten(b)
  {
    if a == [] {
      assert a + b == b;
    } else {
      assert (a + b)[1..] == a[1..] + b;
      FlattenAppend(a[1..], b);
    }
  }

  lemma FlattenOne<T>(a: seq<seq<T>>, x: seq<T>)
    ensures Flatten(a + [x]) == Flatten(a) + x
  {
    FlattenAppend(a, [x]);
    assert Flatten([x]) == x + Flatten([x][1..]) == x;
  }

  lemma ConcatAssociates<T>(a: seq<T>, b: seq<T>, c: seq<T>)
    ensures (a + b) + c == a + (b + c)
  {}

  /** `text.split(separator)` for a one-character separator. */
  function Split(text: string, separator: char): (parts: seq<string>)
    ensures |parts| >= 1
    ensures forall i :: 0 <= i < |parts| ==> separator !in parts[i]
  {
    if text == "" then [""]
    else
      var rest := Split(text[1..], separator);
      if text[0] == separator then [""] + rest
      else [[text[0]] + rest[0]] + rest[1..]
  }

  /** `parts.join(separator)`. */
  function Join(parts: seq<string>, separator: char): string {
    if parts == [] then ""
    else if |parts| == 1 then parts[0]
    else parts[0] + [separator] + Join(parts[1..], separator)
  }

  lemma {:induction false} JoinSplit(text: string, separator: char)
    ensures Join(Split(text, separator), separator) == text
  {
    if text != "" {
      var rest := Split(text[1..], separator);
      JoinSplit(text[1..], separator);
      if text[0] == separator {
        assert ([""] + rest)[1..] == rest;
      } else {
        var parts := [[text[0]] + rest[0]] + rest[1..];
        assert parts[1..] == rest[1..];
        if |rest| > 1 {
          assert Join(rest, separator) == rest[0] + [separator] + Join(rest[1..], separator);
        }
      }
    }
  }

  lemma {:induction false} SplitWord(word: string, separator: char)
    requires separator !in word
    ensures Split(word, separator) == [word]
  {
    if word != "" {
      assert word[0] in word;
      assert forall c :: c in word[1..] ==> c in word;
      SplitWord(word[1..], separator);
      assert word == [word[0]] + word[1..];
    }
  }

  lemma {:induction false} SplitCons(word: string, rest: string, separator: char)
    requires separator !in word
    ensures Split(word + [separator] + rest, separator) == [word] + Split(rest, separator)
  {
    if word == "" {
      assert word + [separator] + rest == [separator] + rest;
    } else {
      assert word[0] in word;
      assert forall c :: c in word[1..] ==> c in word;
      SplitCons(word[1..], rest, separator);
      assert (word + [separator] + rest)[1..] == word[1..] + [separator] + rest;
      assert word == [word[0]] + word[1..];
      assert ([word[1..]] + Split(rest, separator))[1..] == Split(rest, separator);
    }
  }

  lemma {:induction false} SplitJoin(parts: seq<string>, separator: char)
    requires parts != []
    requires forall i :: 0 <= i < |parts| ==> separator !in parts[i]
    ensures Split(Join(parts, separator), separator) == parts
  {
    if |parts| == 1 {
      SplitWord(parts[0], separator);
    } else {
      SplitJoin(parts[1..], separator);
      SplitCons(parts[0], Join(parts[1..], separator), separator);
    }
  }

  /** A list of inclusive code-point ranges, and membership of a character in one of them. */
  type Ranges = seq<(int, int)>

  predicate InRanges(c: char, ranges: Ranges) {
    ranges != [] && (ranges[0].0 <= c as int <= ranges[0].1 || InRanges(c, ranges[1..]))
  }

  lemma {:induction false} InRangesExists(c: char, ranges: Ranges)
    ensures InRanges(c, ranges) <==> exists i :: 0 <= i < |ranges| && ranges[i].0 <= c as int <= ranges[i].1
  {
    if ranges != [] {
      InRangesExists(c, ranges[1..]);
      if ranges[0].0 <= c as int <= ranges[0].1 {
      } else if InRanges(c, ranges[1..]) {
        var i :| 0 <= i < |ranges[1..]| && ranges[1..][i].0 <= c as int <= ranges[1..][i].1;
        assert ranges[i + 1] == ranges[1..][i];
      } else {
        forall i | 0 <= i < |ranges| ensures !(ranges[i].0 <= c as int <= ranges[i].1) {
          assert i > 0 ==> ranges[i] == ranges[1..][i - 1];
        }
      }
    }
  }

  /** The white space that `trim` and `\s` recognise. */
  const WHITE_SPACE: Ranges := [
    (0x20, 0x20), (0x09, 0x0d), (0xa0, 0xa0), (0x1680, 0x1680), (0x2000, 0x200a), (0x2028, 0x2029),
    (0x202f, 0x202f), (0x205f, 0x205f), (0x3000, 0x3000), (0xfeff, 0xfeff)
  ]

  predicate IsSpace(c: char) {
    InRanges(c, WHITE_SPACE)
  }

  function TrimStart(text: string): string {
    if text != "" && IsSpace(text[0]) then TrimStart(text[1..]) else text
  }

  function TrimEnd(text: string): string {
    if text != "" && IsSpace(text[|text| - 1]) then TrimEnd(text[..|text| - 1]) else text
  }

  /** `text.trim()`. */
  function Trim(text: string): string {
    TrimEnd(TrimStart(text))
  }

  lemma {:induction false} TrimStartShape(text: string)
    ensures exists k :: 0 <= k <= |text| && TrimStart(text) == text[k..] && forall i :: 0 <= i < k ==> IsSpace(text[i])
    ensures TrimStart(text) != "" ==> !IsSpace(TrimStart(text)[0])
    ensures |TrimStart(text)| <= |text|
    ensures text != "" && IsSpace(text[0]) ==> |TrimStart(text)| < |text|
  {
    if text != "" && IsSpace(text[0]) {
      TrimStartShape(text[1..]);
      var k :| 0 <= k <= |text[1..]| && TrimStart(text[1..]) == text[1..][k..]
               && forall i :: 0 <= i < k ==> IsSpace(text[1..][i]);
      assert text[1..][k..] == text[k + 1..];
      assert forall i :: 0 <= i < k + 1 ==> IsSpace(text[i]) by {
        forall i | 0 <= i < k + 1 ensures IsSpace(text[i]) {
          if i > 0 {
            assert text[i] == text[1..][i - 1];
          }
        }
      }
    } else {
      assert text[0..] == text;
    }
  }

  lemma {:induction false} TrimEndShape(text: string)
    ensures TrimEnd(text) <= text
    ensures TrimEnd(text) != "" ==> !IsSpace(TrimEnd(text)[|TrimEnd(text)| - 1])
  {
    if text != "" && IsSpace(text[|text| - 1]) {
      TrimEndShape(text[..|text| - 1]);
    }
  }

  lemma {:induction false} TrimEndKeepsInk(text: string)
    ensures text != "" && !IsSpace(text[0]) ==> TrimEnd(text) != "" && TrimEnd(text)[0] == text[0]
  {
    if |text| > 1 && IsSpace(text[|text| - 1]) {
      TrimEndKeepsInk(text[..|text| - 1]);
    }
  }

  lemma TrimTwice(text: string)
    ensures Trim(Trim(text)) == Trim(text)
  {
    TrimStartShape(text);
    TrimEndShape(TrimStart(text));
    TrimEndKeepsInk(TrimStart(text));
    var t := Trim(text);
    assert TrimStart(t) == t;
    assert TrimEnd(t) == t;
  }

  predicate IsDigit(c: char) {
    '0' <= c <= '9'
  }

  predicate AllDigits(raw: string) {
    forall i :: 0 <= i < |raw| ==> IsDigit(raw[i])
  }

  function DigitsValue(raw: string): nat
    requires AllDigits(raw)
  {
    if raw == "" then 0
    else DigitsValue(raw[..|raw| - 1]) * 10 + (raw[|raw| - 1] as int - '0' as int)
  }

  /** A number as it is printed in decimal. */
  function Decimal(n: nat): (text: string)
    ensures text != "" && AllDigits(text)
  {
    (if n < 10 then "" else Decimal(n / 10)) + ['0' + (n % 10) as char]
  }

  lemma {:induction false} DecimalRoundTrip(n: nat)
    ensures DigitsValue(Decimal(n)) == n
  {
    var last := '0' + (n % 10) as char;
    if n < 10 {
      assert Decimal(n) == [last];
    } else {
      DecimalRoundTrip(n / 10);
      assert Decimal(n)[..|Decimal(n)| - 1] == Decimal(n / 10);
    }
  }

  // ---------------------------------------------------------------------------
  // Line endings
  // ---------------------------------------------------------------------------

  /** `text.replace(/\r\n/g, '\n')`. */
  function WithoutCrLf(text: string): string {
    if text == "" then ""
    else if |text| >= 2 && text[0] == '\r' && text[1] == '\n' then "\n" + WithoutCrLf(text[2..])
    else [text[0]] + WithoutCrLf(text[1..])
  }

  /** `text.replace(/\r/g, '\n')`. */
  function CrToLf(text: string): string {
    if text == "" then "" else [if text[0] == '\r' then '\n' else text[0]] + CrToLf(text[1..])
  }

  function UnixLines(text: string): string {
    CrToLf(WithoutCrLf(text))
  }

  lemma {:induction false} CrToLfShape(text: string)
    ensures '\r' !in CrToLf(text)
    ensures '\r' !in text ==> CrToLf(text) == text
  {
    if text != "" {
      CrToLfShape(text[1..]);
      assert text == [text[0]] + text[1..];
    }
  }

  lemma {:induction false} WithoutCrLfIdentity(text: string)
    requires '\r' !in text
    ensures WithoutCrLf(text) == text
  {
    if text != "" {
      assert text == [text[0]] + text[1..];
      WithoutCrLfIdentity(text[1..]);
    }
  }

  lemma UnixLinesShape(text: string)
    ensures '\r' !in UnixLines(text)
    ensures '\r' !in text ==> UnixLines(text) == text
  {
    CrToLfShape(WithoutCrLf(text));
    if '\r' !in text {
      WithoutCrLfIdentity(text);
    }
  }

  // ---------------------------------------------------------------------------
  // UTF-16
  // ---------------------------------------------------------------------------

  type CodeUnit = n: nat | n < 0x1_0000

  /** A character as a JavaScript string holds it: one code unit, or a pair of surrogates. */
  function EncodeChar(c: char): seq<CodeUnit> {
    var n := c as int;
    if n < 0x1_0000 then [n] else [0xd800 + (n - 0x1_0000) / 0x400, 0xdc00 + (n - 0x1_0000) % 0x400]
  }

  function Encode(text: string): (units: seq<CodeUnit>)
    ensures |text| <= |units|
  {
    if text == "" then [] else EncodeChar(text[0]) + Encode(text[1..])
  }

  lemma {:induction false} EncodeConcat(a: string, b: string)
    ensures Encode(a + b) == Encode(a) + Encode(b)
  {
    if a == "" {
      assert a + b == b;
    } else {
      assert (a + b)[1..] == a[1..] + b;
      EncodeConcat(a[1..], b);
    }
  }
}
