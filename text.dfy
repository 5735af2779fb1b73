/**
 * The Python `str` operations the driver's classifiers and parsers are
 * built from, on `string` (= `seq<char>`): `find`, `split` with an explicit
 * separator, `lstrip`/`rstrip`/`strip` with a character-set argument,
 * `replace(c, '')`, `str(int)` and `int(str)`.
 */
module PyText {
  import opened Errors

  /** `t` occurs in `s` starting at index `i`. */
  predicate OccursAt(s: string, t: string, i: int) {
    0 <= i && i + |t| <= |s| && s[i..i + |t|] == t
  }

  ghost predicate Occurs(s: string, t: string) {
    exists i :: OccursAt(s, t, i)
  }

  function FindFrom(s: string, t: string, from: nat): (r: int)
    ensures r == -1 || (from <= r && OccursAt(s, t, r))
    decreases |s| - from
  {
    if from + |t| > |s| then -1
    else if s[from..from + |t|] == t then from
    else FindFrom(s, t, from + 1)
  }

  /** The search from `from` returns the first occurrence at or after `from`, or -1 when there is none. */
  lemma {:induction false} FindFromSpec(s: string, t: string, from: nat)
    ensures forall i :: from <= i && (FindFrom(s, t, from) == -1 || i < FindFrom(s, t, from)) ==> !OccursAt(s, t, i)
    decreases |s| - from
  {
    if from + |t| <= |s| && s[from..from + |t|] != t {
      FindFromSpec(s, t, from + 1);
    }
  }

  /** Python `s.find(t)`: the lowest index where `t` occurs, or -1. */
  function Find(s: string, t: string): (r: int)
    ensures r == -1 || OccursAt(s, t, r)
  {
    FindFrom(s, t, 0)
  }

  /** `find` succeeds exactly when `t` occurs, and then at its first occurrence. */
  lemma FindSpec(s: string, t: string)
    ensures Find(s, t) >= 0 <==> Occurs(s, t)
    ensures forall i :: 0 <= i < Find(s, t) ==> !OccursAt(s, t, i)
  {
    FindFromSpec(s, t, 0);
  }

  lemma FindFirst(s: string, t: string, i: int)
    requires OccursAt(s, t, i)
    requires forall j :: 0 <= j < i ==> !OccursAt(s, t, j)
    ensures Find(s, t) == i
  {
    FindSpec(s, t);
  }

  /** A string that lacks one character of `t` cannot contain `t`. */
  lemma MissingCharNoOccurrence(s: string, t: string, k: nat)
    requires k < |t| && t[k] !in s
    ensures !Occurs(s, t) && Find(s, t) == -1
  {
    forall i | 0 <= i && i + |t| <= |s| ensures !OccursAt(s, t, i) {
      assert s[i..i + |t|][k] == s[i + k] != t[k];
    }
    FindSpec(s, t);
  }

  /** If the first character of `t` is absent from `a`, `t` is first found right after `a`. */
  lemma FindAfterPrefix(a: string, t: string, b: string)
    requires |t| > 0 && t[0] !in a
    ensures Find(a + t + b, t) == |a|
  {
    var s := a + t + b;
    assert s[|a|..|a| + |t|] == t;
    forall j | 0 <= j < |a| && j + |t| <= |s| ensures !OccursAt(s, t, j) {
      assert s[j..j + |t|][0] == s[j] == a[j] != t[0];
    }
    FindFirst(s, t, |a|);
  }

  const CRLF: string := "\r\n"

  /** CR LF cannot straddle a boundary in front of another CR LF, because CR differs from LF. */
  lemma FindCrlfAfter(a: string, b: string)
    requires !Occurs(a, CRLF)
    ensures Find(a + CRLF + b, CRLF) == |a|
  {
    var s := a + CRLF + b;
    assert OccursAt(s, CRLF, |a|);
    forall j | 0 <= j < |a| ensures !OccursAt(s, CRLF, j) {
      if j + 2 <= |a| {
        assert a[j..j + 2] == s[j..j + 2];
        assert !OccursAt(a, CRLF, j);
      } else {
        assert s[j..j + 2][1] == s[|a|] == '\r';
      }
    }
    FindFirst(s, CRLF, |a|);
  }

  lemma OccursSingle(s: string, c: char)
    ensures Occurs(s, [c]) <==> c in s
  {
    if c in s {
      var i :| 0 <= i < |s| && s[i] == c;
      assert OccursAt(s, [c], i);
    }
    if Occurs(s, [c]) {
      var i :| OccursAt(s, [c], i);
      assert s[i] == c;
    }
  }

  // ---------------------------------------------------------------- split

  /** `sep.join(parts)` */
  function Join(parts: seq<string>, sep: string): string
    decreases |parts|
  {
    if parts == [] then ""
    else if |parts| == 1 then parts[0]
    else parts[0] + sep + Join(parts[1..], sep)
  }

  lemma JoinCons(h: string, tail: seq<string>, sep: string)
    requires |tail| >= 1
    ensures Join([h] + tail, sep) == h + sep + Join(tail, sep)
  {
    assert ([h] + tail)[1..] == tail;
  }

  /** Python `s.split(sep)` for a non-empty separator. */
  function Split(s: string, sep: string): (parts: seq<string>)
    requires sep != []
    ensures |parts| >= 1
    ensures |parts| == 1 <==> !Occurs(s, sep)
    decreases |s|
  {
    var i := Find(s, sep);
    FindSpec(s, sep);
    if i < 0 then [s] else [s[..i]] + Split(s[i + |sep|..], sep)
  }

  lemma SplitFirstPiece(s: string, sep: string)
    requires sep != [] && Occurs(s, sep)
    ensures var i := Find(s, sep);
      i >= 0 && Split(s, sep) == [s[..i]] + Split(s[i + |sep|..], sep)
  {
    FindSpec(s, sep);
  }

  /** Text that holds no separator splits into itself alone. */
  lemma SplitNone(s: string, sep: string)
    requires sep != [] && !Occurs(s, sep)
    ensures Split(s, sep) == [s]
  {
  }

  /** Where the first separator follows `a`, the first piece is `a` and the rest is split on. */
  lemma SplitAfter(a: string, sep: string, rest: string)
    requires sep != [] && Find(a + sep + rest, sep) == |a|
    ensures Split(a + sep + rest, sep) == [a] + Split(rest, sep)
  {
    var s := a + sep + rest;
    SplitFirstPiece(s, sep);
    assert s[..|a|] == a && s[|a| + |sep|..] == rest;
  }

  /** A one-character separator absent from `a` ends the first piece right after `a`. */
  lemma SplitAtChar(a: string, c: char, rest: string)
    requires c !in a
    ensures Split(a + [c] + rest, [c]) == [a] + Split(rest, [c])
  {
    FindAfterPrefix(a, [c], rest);
    SplitAfter(a, [c], rest);
  }

  /** A line without LF ends at the first CR LF after it. */
  lemma SplitAtCrlf(a: string, rest: string)
    requires '\n' !in a
    ensures Split(a + CRLF + rest, CRLF) == [a] + Split(rest, CRLF)
  {
    MissingCharNoOccurrence(a, CRLF, 1);
    FindCrlfAfter(a, rest);
    SplitAfter(a, CRLF, rest);
  }

  /** Splitting loses nothing: joining the pieces rebuilds the text. */
  lemma {:induction false} SplitJoin(s: string, sep: string)
    requires sep != []
    ensures Join(Split(s, sep), sep) == s
    decreases |s|
  {
    var i := Find(s, sep);
    if i >= 0 {
      var rest := s[i + |sep|..];
      SplitJoin(rest, sep);
      var tail := Split(rest, sep);
      SplitFirstPiece(s, sep);
      JoinCons(s[..i], tail, sep);
      SliceAround(s, i, sep);
    }
  }

  lemma SliceAround(s: string, i: nat, t: string)
    requires OccursAt(s, t, i)
    ensures s == s[..i] + t + s[i + |t|..]
  {
    assert s == s[..i] + s[i..i + |t|] + s[i + |t|..];
  }

  /** No piece of a split contains the separator. */
  lemma {:induction false} SplitPiecesFree(s: string, sep: string)
    requires sep != []
    ensures forall k :: 0 <= k < |Split(s, sep)| ==> !Occurs(Split(s, sep)[k], sep)
    decreases |s|
  {
    var i := Find(s, sep);
    FindSpec(s, sep);
    if i >= 0 {
      var rest := s[i + |sep|..];
      SplitPiecesFree(rest, sep);
      var head := s[..i];
      forall j | 0 <= j && j + |sep| <= |head| ensures !OccursAt(head, sep, j) {
        assert s[j..j + |sep|] == head[j..j + |sep|];
        assert !OccursAt(s, sep, j);
      }
      assert Split(s, sep) == [head] + Split(rest, sep);
    }
  }

  /** For a one-character separator, splitting undoes joining pieces that lack it. */
  lemma {:induction false} JoinSplit(parts: seq<string>, c: char)
    requires |parts| >= 1
    requires forall k :: 0 <= k < |parts| ==> c !in parts[k]
    ensures Split(Join(parts, [c]), [c]) == parts
    decreases |parts|
  {
    if |parts| == 1 {
      OccursSingle(parts[0], c);
    } else {
      var rest := Join(parts[1..], [c]);
      var s := parts[0] + [c] + rest;
      assert parts == [parts[0]] + parts[1..];
      JoinCons(parts[0], parts[1..], [c]);
      assert Join(parts, [c]) == s;
      FindAfterPrefix(parts[0], [c], rest);
      assert OccursAt(s, [c], |parts[0]|);
      assert s[..|parts[0]|] == parts[0];
      assert s[|parts[0]| + 1..] == rest;
      JoinSplit(parts[1..], c);
      assert Split(s, [c]) == [parts[0]] + Split(rest, [c]);
    }
  }

  // ---------------------------------------------------------------- strip

  /** Python `s.lstrip(chars)`: drops the longest prefix made of characters of `chars`. */
  function LStrip(s: string, chars: string): (r: string)
    ensures |r| <= |s| && r == s[|s| - |r|..]
    ensures r == [] || r[0] !in chars
    decreases |s|
  {
    if s != [] && s[0] in chars then LStrip(s[1..], chars) else s
  }

  /** Everything `lstrip` drops is a strippable character. */
  lemma {:induction false} LStripDrops(s: string, chars: string)
    ensures forall i :: 0 <= i < |s| - |LStrip(s, chars)| ==> s[i] in chars
    decreases |s|
  {
    if s != [] && s[0] in chars {
      LStripDrops(s[1..], chars);
    }
  }

  /** Python `s.rstrip(chars)`: drops the longest suffix made of characters of `chars`. */
  function RStrip(s: string, chars: string): (r: string)
    ensures |r| <= |s| && r == s[..|r|]
    ensures r == [] || r[|r| - 1] !in chars
    decreases |s|
  {
    if s != [] && s[|s| - 1] in chars then RStrip(s[..|s| - 1], chars) else s
  }

  /** Everything `rstrip` drops is a strippable character. */
  lemma {:induction false} RStripDrops(s: string, chars: string)
    ensures forall i :: |RStrip(s, chars)| <= i < |s| ==> s[i] in chars
    decreases |s|
  {
    if s != [] && s[|s| - 1] in chars {
      RStripDrops(s[..|s| - 1], chars);
    }
  }

  /** Python `s.strip(chars)`. */
  function Strip(s: string, chars: string): string {
    RStrip(LStrip(s, chars), chars)
  }

  /** `lstrip` removes exactly a prefix of strippable characters that stops before a kept one. */
  lemma LStripExact(p: string, s: string, chars: string)
    requires forall i :: 0 <= i < |p| ==> p[i] in chars
    requires s == [] || s[0] !in chars
    ensures LStrip(p + s, chars) == s
    decreases |p|
  {
    if p == [] {
      assert p + s == s;
    } else {
      assert (p + s)[1..] == p[1..] + s;
      LStripExact(p[1..], s, chars);
    }
  }

  /** `rstrip` removes exactly a suffix of strippable characters that follows a kept one. */
  lemma RStripExact(s: string, q: string, chars: string)
    requires forall i :: 0 <= i < |q| ==> q[i] in chars
    requires s == [] || s[|s| - 1] !in chars
    ensures RStrip(s + q, chars) == s
    decreases |q|
  {
    if q == [] {
      assert s + q == s;
    } else {
      assert (s + q)[..|s + q| - 1] == s + q[..|q| - 1];
      RStripExact(s, q[..|q| - 1], chars);
    }
  }

  /**
   * Stripping the characters of `left` from the front and those of `right`
   * from the back of `left + mid + right` leaves `mid`, when `mid` starts
   * with a character outside `left` and ends with one outside `right`.
   */
  lemma StripBetween(left: string, mid: string, right: string)
    requires mid != [] && mid[0] !in left && mid[|mid| - 1] !in right
    ensures RStrip(LStrip(left + mid + right, left), right) == mid
  {
    assert left + mid + right == left + (mid + right);
    LStripExact(left, mid + right, left);
    RStripExact(mid, right, right);
  }

  /** `rstrip` never reaches past a character it keeps. */
  lemma RStripKeeps(a: string, b: string, chars: string)
    requires exists i :: 0 <= i < |b| && b[i] !in chars
    ensures RStrip(a + b, chars) == a + RStrip(b, chars)
    decreases |b|
  {
    var i :| 0 <= i < |b| && b[i] !in chars;
    if b[|b| - 1] in chars {
      assert i < |b| - 1;
      assert (a + b)[..|a + b| - 1] == a + b[..|b| - 1];
      assert b[..|b| - 1][i] == b[i];
      RStripKeeps(a, b[..|b| - 1], chars);
    }
  }

  // ------------------------------------------------------- replace(c, '')

  /** Python `s.replace(c, '')` for a one-character `c`. */
  function RemoveAll(s: string, c: char): (r: string)
    ensures c !in r && |r| <= |s|
    ensures forall x :: x in r ==> x in s
    decreases |s|
  {
    if s == [] then []
    else
      assert s == [s[0]] + s[1..];
      (if s[0] == c then [] else [s[0]]) + RemoveAll(s[1..], c)
  }

  lemma RemoveAllAbsent(s: string, c: char)
    requires c !in s
    ensures RemoveAll(s, c) == s
    decreases |s|
  {
    if s != [] {
      RemoveAllAbsent(s[1..], c);
      assert s == [s[0]] + s[1..];
    }
  }

  lemma {:induction false} RemoveAllConcat(a: string, b: string, c: char)
    ensures RemoveAll(a + b, c) == RemoveAll(a, c) + RemoveAll(b, c)
    decreases |a|
  {
    if a == [] {
      assert a + b == b;
    } else {
      var x := a + b;
      assert x[0] == a[0] && x[1..] == a[1..] + b;
      RemoveAllConcat(a[1..], b, c);
      var h: string := if a[0] == c then [] else [a[0]];
      calc {
        RemoveAll(x, c);
        h + RemoveAll(a[1..] + b, c);
        h + (RemoveAll(a[1..], c) + RemoveAll(b, c));
        (h + RemoveAll(a[1..], c)) + RemoveAll(b, c);
      }
    }
  }

  /** Dropping the underscores of a string of digits and underscores leaves only digits. */
  lemma {:induction false} RemoveUnderscoresDigits(s: string)
    requires forall i :: 0 <= i < |s| ==> IsDigit(s[i]) || s[i] == '_'
    ensures AllDigits(RemoveAll(s, '_'))
    decreases |s|
  {
    if s != [] {
      RemoveUnderscoresDigits(s[1..]);
    }
  }

  // ----------------------------------------------------- decimal integers

  predicate IsDigit(c: char) {
    '0' <= c <= '9'
  }

  predicate AllDigits(s: string) {
    forall i :: 0 <= i < |s| ==> IsDigit(s[i])
  }

  function DigitChar(d: nat): (c: char)
    requires d < 10
    ensures IsDigit(c)
  {
    ('0' as int + d) as char
  }

  function DigitsValue(s: string): nat
    requires AllDigits(s)
    decreases |s|
  {
    if s == [] then 0
    else 10 * DigitsValue(s[..|s| - 1]) + (s[|s| - 1] as int - '0' as int)
  }

  /** Python `str(n)` for a natural number: digits, no leading zero. */
  function NatToDecimal(n: nat): (s: string)
    ensures |s| >= 1 && AllDigits(s)
    ensures s[0] == '0' ==> n == 0
    decreases n
  {
    if n < 10 then [DigitChar(n)] else NatToDecimal(n / 10) + [DigitChar(n % 10)]
  }

  /** Python `str(i)`. */
  function IntToDecimal(i: int): (s: string)
    ensures |s| >= 1
  {
    if i < 0 then "-" + NatToDecimal(-i) else NatToDecimal(i)
  }

  lemma {:induction false} NatToDecimalValue(n: nat)
    ensures DigitsValue(NatToDecimal(n)) == n
    decreases n
  {
    if n >= 10 {
      NatToDecimalValue(n / 10);
      var s := NatToDecimal(n);
      assert s[..|s| - 1] == NatToDecimal(n / 10);
    }
  }

  /** The characters Python's `int()` skips around a number (the ASCII ones). */
  const PY_WHITESPACE: string := [' ', '\t', '\n', 11 as char, 12 as char, '\r', 28 as char, 29 as char, 30 as char, 31 as char]

  /** Digits, with single underscores allowed between digits, as `int()` accepts them. */
  predicate IsDigitGroup(s: string) {
    && |s| >= 1
    && IsDigit(s[0]) && IsDigit(s[|s| - 1])
    && (forall i :: 0 <= i < |s| ==> IsDigit(s[i]) || s[i] == '_')
    && (forall i :: 0 <= i < |s| - 1 ==> !(s[i] == '_' && s[i + 1] == '_'))
  }

  /** Python `int(s)` for a base-10 string. */
  function ParseInt(s: string): (r: Result<int>)
    ensures r.Err? ==> r.error == ValueError
  {
    var t := Strip(s, PY_WHITESPACE);
    if t == [] then Err(ValueError)
    else
      var body := if t[0] == '+' || t[0] == '-' then t[1..] else t;
      if !IsDigitGroup(body) then Err(ValueError)
      else
        var digits := RemoveAll(body, '_');
        assert AllDigits(digits) by { RemoveUnderscoresDigits(body); }
        var v: int := DigitsValue(digits);
        Ok(if t[0] == '-' then -v else v)
  }

  /** Text whose two ends are kept survives `strip` unchanged. */
  lemma StripKeptEnds(s: string, chars: string)
    requires s != [] && s[0] !in chars && s[|s| - 1] !in chars
    ensures Strip(s, chars) == s
  {
    LStripExact([], s, chars);
    RStripExact(s, [], chars);
    assert [] + s == s && s + [] == s;
  }

  /** A digit string reads back as the number its digits spell. */
  lemma ParseDigits(d: string)
    requires d != [] && AllDigits(d)
    ensures ParseInt(d) == Ok(DigitsValue(d) as int)
  {
    DigitNotWhitespace(d[0]);
    DigitNotWhitespace(d[|d| - 1]);
    StripKeptEnds(d, PY_WHITESPACE);
    DigitGroupOfDigits(d);
  }

  /** A minus sign followed by digits reads back as the negated number. */
  lemma ParseMinusDigits(s: string)
    requires |s| >= 2 && s[0] == '-' && AllDigits(s[1..])
    ensures ParseInt(s) == Ok(-(DigitsValue(s[1..]) as int))
  {
    DigitNotWhitespace(s[0]);
    assert s[1..][|s| - 2] == s[|s| - 1];
    DigitNotWhitespace(s[|s| - 1]);
    StripKeptEnds(s, PY_WHITESPACE);
    DigitGroupOfDigits(s[1..]);
  }

  lemma DigitNotWhitespace(c: char)
    requires IsDigit(c) || c == '-'
    ensures c !in PY_WHITESPACE
  {
  }

  /** A plain digit string is a digit group and has no underscore to drop. */
  lemma DigitGroupOfDigits(d: string)
    requires d != [] && AllDigits(d)
    ensures IsDigitGroup(d) && RemoveAll(d, '_') == d
  {
    assert '_' !in d;
    RemoveAllAbsent(d, '_');
  }

  /** `int(str(i)) == i` */
  lemma ParseIntRoundTrip(i: int)
    ensures ParseInt(IntToDecimal(i)) == Ok(i)
  {
    var n: nat := if i < 0 then -i else i;
    NatToDecimalValue(n);
    if i < 0 {
      var s := IntToDecimal(i);
      assert s[1..] == NatToDecimal(n);
      ParseMinusDigits(s);
    } else {
      ParseDigits(NatToDecimal(n));
    }
  }

  /** `int(c) == 1` holds exactly for the character `1`; `int(c)` fails unless `c` is a digit. */
  lemma ParseIntSingleChar(c: char)
    ensures ParseInt([c]).Ok? <==> IsDigit(c)
    ensures ParseInt([c]) == Ok(1) <==> c == '1'
  {
    if c in PY_WHITESPACE {
      assert LStrip([c], PY_WHITESPACE) == [];
    } else {
      StripKeptEnds([c], PY_WHITESPACE);
      if IsDigit(c) {
        RemoveAllAbsent([c], '_');
        assert DigitsValue([c]) == c as int - '0' as int;
      }
    }
  }
}
