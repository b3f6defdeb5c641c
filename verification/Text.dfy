/**
 Text as the frame protocol uses it: decimal numerals (strconv.Itoa, Atoi, FormatUint and
 ParseUint), strings.Split, strings.Fields, strings.IndexByte and strings.TrimSuffix.
 A byte is a `char`; whitespace is ASCII whitespace.
 */
module Text {
  import opened Wrappers

  const MIN_INT64: int := -0x8000_0000_0000_0000
  const MAX_INT64: int := 0x7FFF_FFFF_FFFF_FFFF
  const MAX_UINT64: int := 0xFFFF_FFFF_FFFF_FFFF

  predicate Fits64(n: int) {
    MIN_INT64 <= n <= MAX_INT64
  }

  // ---------- Decimal numerals ----------

  predicate IsDigit(c: char) {
    '0' <= c <= '9'
  }

  predicate AllDigits(s: string) {
    forall i :: 0 <= i < |s| ==> IsDigit(s[i])
  }

  /** The characters that a printed number can hold. */
  predicate IsNumeral(s: string) {
    |s| > 0 && forall i :: 0 <= i < |s| ==> IsDigit(s[i]) || s[i] == '-'
  }

  function DigitChar(d: nat): (c: char)
    requires d < 10
    ensures IsDigit(c) && DigitValue(c) == d
  {
    '0' + d as char
  }

  function DigitValue(c: char): (d: nat)
    requires IsDigit(c)
    ensures d < 10
  {
    c as int - '0' as int
  }

  function FormatNat(n: nat): (s: string)
    ensures |s| > 0 && AllDigits(s)
  {
    if n < 10 then [DigitChar(n)] else FormatNat(n / 10) + [DigitChar(n % 10)]
  }

  function NatValue(s: string): nat
    requires AllDigits(s)
  {
    if s == "" then 0 else 10 * NatValue(s[..|s| - 1]) + DigitValue(s[|s| - 1])
  }

  function Itoa(n: int): (s: string)
    ensures IsNumeral(s)
  {
    if n < 0 then "-" + FormatNat(-n) else FormatNat(n)
  }

  /** strconv.Atoi: an optional sign, at least one digit, nothing else, and a 64-bit value. */
  function Atoi(s: string): Option<int> {
    var signed := s != "" && (s[0] == '-' || s[0] == '+');
    var digits := if signed then s[1..] else s;
    if digits == "" || !AllDigits(digits) then None
    else
      var value: int := (if s[0] == '-' then -1 else 1) * NatValue(digits);
      if Fits64(value) then Some(value) else None
  }

  /** strconv.ParseUint(s, 10, 64): digits only, and a value that fits in 64 bits. */
  function ParseUint(s: string): Option<nat> {
    if s == "" || !AllDigits(s) then None
    else if NatValue(s) <= MAX_UINT64 then Some(NatValue(s)) else None
  }

  function Pow10(k: nat): (p: nat)
    ensures p > 0
  {
    if k == 0 then 1 else 10 * Pow10(k - 1)
  }

  lemma {:induction false} FormatNatInverse(n: nat)
    ensures NatValue(FormatNat(n)) == n
  {
    if n >= 10 {
      FormatNatInverse(n / 10);
      var s := FormatNat(n);
      assert s[..|s| - 1] == FormatNat(n / 10);
    }
  }

  /** Atoi undoes Itoa on 64-bit integers and refuses every other printed number. */
  lemma AtoiInverse(n: int)
    ensures Atoi(Itoa(n)) == if Fits64(n) then Some(n) else None
  {
    if n < 0 {
      FormatNatInverse(-n);
      AtoiSigned('-', FormatNat(-n), n);
    } else {
      FormatNatInverse(n);
      AtoiUnsigned(FormatNat(n));
    }
  }

  /** Exactly what Atoi reads: digits, after at most one sign, that stand for a 64-bit integer. */
  lemma AtoiUnsigned(digits: string)
    requires digits != "" && AllDigits(digits)
    ensures Atoi(digits) == if Fits64(NatValue(digits)) then Some(NatValue(digits)) else None
  {
    assert IsDigit(digits[0]);
  }

  lemma AtoiSigned(sign: char, digits: string, v: int)
    requires digits != "" && AllDigits(digits)
    requires (sign == '+' && v == NatValue(digits)) || (sign == '-' && v + NatValue(digits) == 0)
    ensures Atoi([sign] + digits) == if Fits64(v) then Some(v) else None
  {
    assert ([sign] + digits)[1..] == digits;
  }

  lemma AtoiReadsOnly(s: string)
    requires Atoi(s).Some?
    ensures s != "" && var digits := if s[0] == '+' || s[0] == '-' then s[1..] else s;
                       digits != "" && AllDigits(digits)
  {
  }

  /** ParseUint undoes FormatUint on 64-bit numbers and refuses every larger one. */
  lemma ParseUintInverse(n: nat)
    ensures ParseUint(FormatNat(n)) == if n <= MAX_UINT64 then Some(n) else None
  {
    FormatNatInverse(n);
  }

  lemma {:induction false} FormatNatLength(n: nat, k: nat)
    requires k > 0 && n < Pow10(k)
    ensures |FormatNat(n)| <= k
  {
    if n >= 10 {
      FormatNatLength(n / 10, k - 1);
    }
  }

  /** Printed colours and characters take at most three bytes. */
  lemma ItoaShort(n: int)
    requires -99 <= n <= 999
    ensures |Itoa(n)| <= 3
  {
    assert Pow10(3) == 1000 && Pow10(2) == 100 by {
      assert Pow10(1) == 10;
    }
    if n < 0 {
      FormatNatLength(-n, 2);
    } else {
      FormatNatLength(n, 3);
    }
  }

  // ---------- Split and Join ----------

  /** strings.Split(s, sep) for a one-byte separator. */
  function Split(s: string, sep: char): (parts: seq<string>)
    ensures |parts| > 0
  {
    if s == "" then [""]
    else
      var parts := Split(s[..|s| - 1], sep);
      var c := s[|s| - 1];
      if c == sep then parts + [""]
      else parts[..|parts| - 1] + [parts[|parts| - 1] + [c]]
  }

  /** The parts with the separator between neighbours. */
  function Join(parts: seq<string>, sep: char): string {
    if |parts| == 0 then ""
    else if |parts| == 1 then parts[0]
    else Join(parts[..|parts| - 1], sep) + [sep] + parts[|parts| - 1]
  }

  /** The parts, each followed by a newline. */
  function Lines(parts: seq<string>): string {
    if |parts| == 0 then ""
    else Lines(parts[..|parts| - 1]) + parts[|parts| - 1] + "\n"
  }

  lemma JoinSnoc(parts: seq<string>, last: string, sep: char)
    ensures Join(parts + [last], sep) == if parts == [] then last else Join(parts, sep) + [sep] + last
  {
  }

  lemma LinesSnoc(parts: seq<string>, last: string)
    ensures Lines(parts + [last]) == Lines(parts) + last + "\n"
  {
  }

  lemma {:induction false} LinesAppend(a: seq<string>, b: seq<string>)
    ensures Lines(a + b) == Lines(a) + Lines(b)
  {
    if b == [] {
      assert a + b == a;
    } else {
      var front, last := b[..|b| - 1], b[|b| - 1];
      LinesAppend(a, front);
      assert a + b == (a + front) + [last];
      LinesSnoc(a + front, last);
    }
  }

  lemma {:induction false} SplitWhole(s: string, sep: char)
    requires sep !in s
    ensures Split(s, sep) == [s]
  {
    if s != "" {
      var front := s[..|s| - 1];
      SplitWhole(front, sep);
      assert s == front + [s[|s| - 1]];
    }
  }

  lemma {:induction false} SplitLast(a: string, b: string, sep: char)
    requires sep !in b
    ensures Split(a + [sep] + b, sep) == Split(a, sep) + [b]
  {
    var s := a + [sep] + b;
    if b == "" {
      assert s[..|s| - 1] == a;
    } else {
      var front := b[..|b| - 1];
      SplitLast(a, front, sep);
      assert s[..|s| - 1] == a + [sep] + front;
      assert b == front + [b[|b| - 1]];
      assert (Split(a, sep) + [front])[..|Split(a, sep)|] == Split(a, sep);
    }
  }

  /** Split undoes Join when no part holds the separator. */
  lemma {:induction false} SplitJoin(parts: seq<string>, sep: char)
    requires |parts| > 0
    requires forall i :: 0 <= i < |parts| ==> sep !in parts[i]
    ensures Split(Join(parts, sep), sep) == parts
  {
    if |parts| == 1 {
      SplitWhole(parts[0], sep);
    } else {
      var front, last := parts[..|parts| - 1], parts[|parts| - 1];
      SplitJoin(front, sep);
      SplitLast(Join(front, sep), last, sep);
      assert Join(parts, sep) == Join(front, sep) + [sep] + last;
      assert front + [last] == parts;
    }
  }

  /** Join undoes Split on every string, and no part holds the separator. */
  lemma {:induction false} JoinSplit(s: string, sep: char)
    ensures Join(Split(s, sep), sep) == s
    ensures forall i :: 0 <= i < |Split(s, sep)| ==> sep !in Split(s, sep)[i]
  {
    if s != "" {
      var front, c := s[..|s| - 1], s[|s| - 1];
      JoinSplit(front, sep);
      var parts := Split(front, sep);
      assert s == front + [c];
      if c == sep {
        assert (parts + [""])[..|parts|] == parts;
      } else {
        var longer := parts[..|parts| - 1] + [parts[|parts| - 1] + [c]];
        assert longer[..|parts| - 1] == parts[..|parts| - 1];
      }
    }
  }

  lemma {:induction false} LinesAreJoined(parts: seq<string>)
    requires |parts| > 0
    ensures Lines(parts) == Join(parts, '\n') + "\n"
  {
    if |parts| > 1 {
      LinesAreJoined(parts[..|parts| - 1]);
    } else {
      assert Lines(parts[..0]) == "";
    }
  }

  lemma {:induction false} LinesLength(parts: seq<string>, width: nat)
    requires forall i :: 0 <= i < |parts| ==> |parts[i]| <= width
    ensures |Lines(parts)| <= |parts| * (width + 1)
  {
    if |parts| > 0 {
      LinesLength(parts[..|parts| - 1], width);
    }
  }

  lemma {:induction false} JoinLength(parts: seq<string>, sep: char, width: nat)
    requires |parts| > 0
    requires forall i :: 0 <= i < |parts| ==> |parts[i]| <= width
    ensures |Join(parts, sep)| <= |parts| * (width + 1) - 1
  {
    if |parts| > 1 {
      JoinLength(parts[..|parts| - 1], sep, width);
    }
  }

  /** Joined text is free of a character that neither the parts nor the separator hold. */
  lemma {:induction false} JoinFree(parts: seq<string>, sep: char, c: char)
    requires c != sep
    requires forall i :: 0 <= i < |parts| ==> c !in parts[i]
    ensures c !in Join(parts, sep)
  {
    if |parts| > 1 {
      JoinFree(parts[..|parts| - 1], sep, c);
    }
  }

  // ---------- Fields ----------

  predicate IsSpace(c: char) {
    c == ' ' || '\t' <= c <= '\r'
  }

  predicate IsWord(s: string) {
    |s| > 0 && forall i :: 0 <= i < |s| ==> !IsSpace(s[i])
  }

  /** Where the trailing word of `s` starts; |s| when `s` ends in whitespace. */
  function WordStart(s: string): (n: nat)
    ensures n <= |s|
    ensures s != "" && !IsSpace(s[|s| - 1]) ==> n < |s|
  {
    if s == "" || IsSpace(s[|s| - 1]) then |s| else WordStart(s[..|s| - 1])
  }

  /** strings.Fields */
  function Fields(s: string): seq<string>
    decreases |s|
  {
    if s == "" then []
    else if IsSpace(s[|s| - 1]) then Fields(s[..|s| - 1])
    else Fields(s[..WordStart(s)]) + [s[WordStart(s)..]]
  }

  lemma {:induction false} WordStartAfterSpace(a: string, w: string)
    requires forall i :: 0 <= i < |w| ==> !IsSpace(w[i])
    ensures WordStart(a + " " + w) == |a| + 1
  {
    if w != "" {
      WordStartAfterSpace(a, w[..|w| - 1]);
      var s := a + " " + w;
      assert s[..|s| - 1] == a + " " + w[..|w| - 1];
    }
  }

  lemma {:induction false} WordStartOfWord(w: string)
    requires forall i :: 0 <= i < |w| ==> !IsSpace(w[i])
    ensures WordStart(w) == 0
  {
    if w != "" {
      WordStartOfWord(w[..|w| - 1]);
    }
  }

  /** Fields undoes Join with spaces on words. */
  lemma FieldsSnoc(a: string, w: string)
    requires IsWord(w)
    ensures Fields(a + " " + w) == Fields(a) + [w]
  {
    var s := a + " " + w;
    WordStartAfterSpace(a, w);
    assert s[..|a| + 1] == a + " ";
    assert (a + " ")[..|a|] == a;
    assert s[|a| + 1..] == w;
  }

  /** Words joined by single spaces come back. */
  lemma {:induction false} FieldsJoin(words: seq<string>)
    requires forall i :: 0 <= i < |words| ==> IsWord(words[i])
    ensures Fields(Join(words, ' ')) == words
  {
    if |words| == 1 {
      WordStartOfWord(words[0]);
    } else if |words| > 1 {
      var front, w := words[..|words| - 1], words[|words| - 1];
      FieldsJoin(front);
      FieldsSnoc(Join(front, ' '), w);
      assert words == front + [w];
    }
  }

  // ---------- Searching and trimming ----------

  /** strings.IndexByte: the first position of `c`, if any. */
  function IndexOf(s: string, c: char): (r: Option<nat>)
    ensures r.Some? ==> r.value < |s| && s[r.value] == c && c !in s[..r.value]
    ensures r.None? ==> c !in s
  {
    if s == "" then None
    else if s[0] == c then Some(0)
    else match IndexOf(s[1..], c)
      case None => None
      case Some(i) =>
        assert s[..i + 1] == [s[0]] + s[1..][..i];
        Some(i + 1)
  }

  lemma IndexOfFirst(a: string, c: char, b: string)
    requires c !in a
    ensures IndexOf(a + [c] + b, c) == Some(|a|)
  {
    var s := a + [c] + b;
    assert s[|a|] == c;
    assert s[..|a|] == a;
  }

  /** strings.TrimSuffix(s, "\n") */
  function TrimNewline(s: string): string {
    if s != "" && s[|s| - 1] == '\n' then s[..|s| - 1] else s
  }
}
