/**
 The string operations the application relies on, over `string` = `seq<char>`:
 ASCII lower-casing (`toLowerCase`), substring search (`includes`),
 `split('/')` followed by `filter(Boolean)`, `parseInt(_, 10)` on any string
 (leading white space, an optional sign, the longest run of digits, `NaN` when
 there is none), decimal printing (`toString`) and `padStart`.
 */
module Text {

  import opened Results

  // ---------------------------------------------------------------------------
  // Lower-casing and substring search
  // ---------------------------------------------------------------------------

  predicate IsUpper(c: char) {
    'A' <= c <= 'Z'
  }

  function LowerChar(c: char): (r: char)
    ensures !IsUpper(r)
    ensures IsUpper(c) ==> r as int == c as int + 32
    ensures !IsUpper(c) ==> r == c
  {
    if IsUpper(c) then (c as int + 32) as char else c
  }

  /** ASCII lower-casing, position by position. */
  function Lower(s: string): (r: string)
    ensures |r| == |s|
    ensures forall i :: 0 <= i < |s| ==> r[i] == LowerChar(s[i])
  {
    seq(|s|, i requires 0 <= i < |s| => LowerChar(s[i]))
  }

  predicate IsPrefix(p: string, s: string) {
    |p| <= |s| && s[..|p|] == p
  }

  /** JavaScript `s.includes(t)`: `t` occurs in `s` at some position. */
  predicate Contains(s: string, t: string)
    decreases |s|
  {
    IsPrefix(t, s) || (|s| > 0 && Contains(s[1..], t))
  }

  /** `t` occurs in `s` starting at index `k`. */
  predicate OccursAt(s: string, t: string, k: nat) {
    k + |t| <= |s| && s[k..k + |t|] == t
  }

  /** Every occurrence of `t` in `s` is found by `Contains`. */
  lemma {:induction false} ContainsAt(s: string, t: string, k: nat)
    requires k + |t| <= |s|
    ensures s[k..k + |t|] == t ==> Contains(s, t)
    decreases k
  {
    if k > 0 && s[k..k + |t|] == t {
      assert s[1..][k - 1..k - 1 + |t|] == s[k..k + |t|];
      ContainsAt(s[1..], t, k - 1);
    }
  }

  /** `Contains` holds exactly when `t` occurs in `s` at some index. */
  lemma {:induction false} ContainsIffOccurs(s: string, t: string)
    ensures Contains(s, t) <==> exists k: nat :: OccursAt(s, t, k)
    decreases |s|
  {
    if Contains(s, t) {
      if IsPrefix(t, s) {
        assert OccursAt(s, t, 0);
      } else {
        ContainsIffOccurs(s[1..], t);
        var j: nat :| OccursAt(s[1..], t, j);
        assert s[1..][j..j + |t|] == s[j + 1..j + 1 + |t|];
        assert OccursAt(s, t, j + 1);
      }
    }
    if exists k: nat :: OccursAt(s, t, k) {
      var k: nat :| OccursAt(s, t, k);
      ContainsAt(s, t, k);
    }
  }

  /** A term with a character the string lacks does not occur in it. */
  lemma {:induction false} CharMissing(s: string, t: string, k: nat)
    requires k < |t| && t[k] !in s
    ensures !Contains(s, t)
    decreases |s|
  {
    if |t| <= |s| {
      assert s[..|t|][k] == s[k] && s[k] in s;
    }
    if |s| > 0 {
      assert t[k] !in s[1..] by {
        assert forall c :: c in s[1..] ==> c in s;
      }
      CharMissing(s[1..], t, k);
    }
  }

  // ---------------------------------------------------------------------------
  // Splitting on a separator
  // ---------------------------------------------------------------------------

  /**
   JavaScript `s.split(sep)` for a one-character separator: the maximal
   separator-free pieces between separators, empty pieces included, so a string
   with n separators gives n + 1 pieces.
   */
  function Split(s: string, sep: char): (parts: seq<string>)
    ensures |parts| >= 1
    ensures forall i :: 0 <= i < |parts| ==> sep !in parts[i]
  {
    if |s| == 0 then [""]
    else
      var rest := Split(s[1..], sep);
      if s[0] == sep then [""] + rest
      else [[s[0]] + rest[0]] + rest[1..]
  }

  /** The inverse of `Split`: the pieces with the separator between each pair. */
  function Join(parts: seq<string>, sep: char): string
    requires |parts| >= 1
  {
    if |parts| == 1 then parts[0] else parts[0] + [sep] + Join(parts[1..], sep)
  }

  /** Splitting loses nothing: joining the pieces back gives the original string. */
  lemma {:induction false} JoinSplit(s: string, sep: char)
    ensures Join(Split(s, sep), sep) == s
  {
    if |s| > 0 {
      var rest := Split(s[1..], sep);
      JoinSplit(s[1..], sep);
      if s[0] != sep {
        var parts := Split(s, sep);
        assert parts[0] == [s[0]] + rest[0];
        if |rest| > 1 {
          assert parts[1..] == rest[1..];
          assert Join(rest, sep) == rest[0] + [sep] + Join(rest[1..], sep);
        }
      }
    }
  }

  /** A string without the separator is one piece: `split` invents no piece. */
  lemma {:induction false} SplitWithoutSeparator(s: string, sep: char)
    requires sep !in s
    ensures Split(s, sep) == [s]
  {
    if |s| > 0 {
      assert sep !in s[1..] by {
        assert forall c :: c in s[1..] ==> c in s;
      }
      SplitWithoutSeparator(s[1..], sep);
      assert [s[0]] + s[1..] == s;
    }
  }

  /**
   Splitting distributes over a separator: the pieces of each side, concatenated.
   With `SplitWithoutSeparator` this fixes the pieces of every string.
   */
  lemma {:induction false} SplitAtSeparator(a: string, b: string, sep: char)
    ensures Split(a + [sep] + b, sep) == Split(a, sep) + Split(b, sep)
    decreases |a|
  {
    var s := a + [sep] + b;
    if |a| == 0 {
      assert s[1..] == b;
    } else {
      assert s[1..] == a[1..] + [sep] + b;
      SplitAtSeparator(a[1..], b, sep);
    }
  }

  /**
   JavaScript `parts.filter(Boolean)` on strings: the non-empty pieces, in order,
   each as often as the input has it.
   */
  function NonEmptyParts(parts: seq<string>): (r: seq<string>)
    ensures |r| <= |parts|
    ensures forall i :: 0 <= i < |r| ==> r[i] != "" && r[i] in parts
    ensures forall p :: p in parts && p != "" ==> p in r
    ensures forall p :: multiset(r)[p] == if p == "" then 0 else multiset(parts)[p]
  {
    if |parts| == 0 then []
    else
      assert parts == [parts[0]] + parts[1..];
      assert multiset(parts) == multiset([parts[0]]) + multiset(parts[1..]);
      if parts[0] == "" then NonEmptyParts(parts[1..])
      else [parts[0]] + NonEmptyParts(parts[1..])
  }

  /** One piece is kept exactly when it is non-empty. */
  lemma NonEmptyPartsOfOne(p: string)
    ensures NonEmptyParts([p]) == if p == "" then [] else [p]
  {
    assert [p][1..] == [];
  }

  /**
   Filtering a concatenation filters each side and keeps them in order; with
   `NonEmptyPartsOfOne` this fixes the result for every input.
   */
  lemma {:induction false} NonEmptyPartsAppend(a: seq<string>, b: seq<string>)
    ensures NonEmptyParts(a + b) == NonEmptyParts(a) + NonEmptyParts(b)
  {
    if |a| > 0 {
      assert (a + b)[1..] == a[1..] + b;
      NonEmptyPartsAppend(a[1..], b);
    } else {
      assert a + b == b;
    }
  }

  /** `s.split('/').filter(Boolean).pop()`: the last non-empty path segment, if any. */
  function LastSegment(s: string): (r: Option<string>)
    ensures r.Some? ==> r.value != "" && '/' !in r.value
    ensures r.None? <==> AllOf(s, '/')
  {
    var parts := Split(s, '/');
    var segments := NonEmptyParts(parts);
    LastSegmentNone(s);
    if |segments| == 0 then None else Some(segments[|segments| - 1])
  }

  /** What `LastSegment` returns is the last segment of the string. */
  lemma LastSegmentIsLast(s: string)
    ensures LastSegment(s).Some? ==> exists k: nat :: SegmentEndsAt(s, LastSegment(s).value, k)
  {
    var parts := Split(s, '/');
    var segments := NonEmptyParts(parts);
    if |segments| > 0 {
      JoinSplit(s, '/');
      LastNonEmptyJoin(parts, segments[|segments| - 1]);
    }
  }

  /**
   `seg` is the last segment of `s` at index `k`: it starts the string or follows
   a `/`, and only slashes come after it.
   */
  predicate SegmentEndsAt(s: string, seg: string, k: nat) {
    && k + |seg| <= |s|
    && s[k..k + |seg|] == seg
    && AllOf(s[k + |seg|..], '/')
    && (k == 0 || s[k - 1] == '/')
  }

  /** A last segment stays the last segment behind a prefix ending in `/`. */
  lemma ShiftSegment(prefix: string, s: string, seg: string, k: nat)
    requires |prefix| > 0 && prefix[|prefix| - 1] == '/'
    requires SegmentEndsAt(s, seg, k)
    ensures SegmentEndsAt(prefix + s, seg, |prefix| + k)
  {
    var t := prefix + s;
    var at := |prefix| + k;
    assert t[at..at + |seg|] == s[k..k + |seg|];
    assert t[at + |seg|..] == s[k + |seg|..];
    if k == 0 {
      assert t[at - 1] == prefix[|prefix| - 1];
    } else {
      assert t[at - 1] == s[k - 1];
    }
  }

  /** The last non-empty piece is the last segment of the joined string. */
  lemma {:induction false} LastNonEmptyJoin(parts: seq<string>, last: string)
    requires |parts| >= 1
    requires forall i :: 0 <= i < |parts| ==> '/' !in parts[i]
    requires |NonEmptyParts(parts)| > 0
    requires last == NonEmptyParts(parts)[|NonEmptyParts(parts)| - 1]
    ensures exists k: nat :: SegmentEndsAt(Join(parts, '/'), last, k)
  {
    var head := parts[0];
    var ne := NonEmptyParts(parts);
    if |parts| == 1 {
      assert parts[1..] == [];
      assert ne == [head];
      assert head[0..|head|] == head && head[|head|..] == "";
      assert Join(parts, '/') == head && last == head;
      assert SegmentEndsAt(head, head, 0);
    } else {
      var tail := Join(parts[1..], '/');
      var s := (head + "/") + tail;
      assert Join(parts, '/') == s;
      var rest := NonEmptyParts(parts[1..]);
      if |rest| > 0 {
        assert ne[|ne| - 1] == rest[|rest| - 1];
        LastNonEmptyJoin(parts[1..], last);
        var k: nat :| SegmentEndsAt(tail, last, k);
        ShiftSegment(head + "/", tail, last, k);
      } else {
        AllEmptyJoin(parts[1..], '/');
        assert ne == [head];
        assert s[0..|head|] == head;
        assert s[|head|..] == "/" + tail;
        AllOfConcat("/", tail, '/');
        assert SegmentEndsAt(s, head, 0);
      }
    }
  }

  /** The characters of `s` from index `e` on are `c` when the suffix is all `c`. */
  lemma AllOfSuffix(s: string, e: nat, c: char)
    requires e <= |s| && AllOf(s[e..], c)
    ensures forall m :: e <= m < |s| ==> s[m] == c
  {
    forall m | e <= m < |s|
      ensures s[m] == c
    {
      assert s[e..][m - e] == s[m];
    }
  }

  /** The characters of `s` in `[k, k + |seg|)` are those of `seg`. */
  lemma SegmentChars(s: string, seg: string, k: nat)
    requires k + |seg| <= |s| && s[k..k + |seg|] == seg
    ensures forall m :: k <= m < k + |seg| ==> s[m] in seg
  {
    forall m | k <= m < k + |seg|
      ensures s[m] in seg
    {
      assert seg[m - k] == s[m];
    }
  }

  /** A string has at most one last segment: it is determined with its position. */
  lemma SegmentUnique(s: string, a: string, b: string, i: nat, j: nat)
    requires a != "" && '/' !in a && SegmentEndsAt(s, a, i)
    requires b != "" && '/' !in b && SegmentEndsAt(s, b, j)
    ensures a == b && i == j
  {
    var ea, eb := i + |a|, j + |b|;
    AllOfSuffix(s, ea, '/');
    AllOfSuffix(s, eb, '/');
    SegmentChars(s, a, i);
    SegmentChars(s, b, j);
    assert s[ea - 1] in a && s[eb - 1] in b;
    assert ea == eb;
    assert i == j;
  }

  /** No non-empty segment exists exactly when the string is all slashes. */
  lemma LastSegmentNone(s: string)
    ensures |NonEmptyParts(Split(s, '/'))| == 0 <==> AllOf(s, '/')
  {
    JoinSplit(s, '/');
    AllEmptyJoin(Split(s, '/'), '/');
  }

  /** Every character of `s` is `c`. */
  predicate AllOf(s: string, c: char) {
    forall i :: 0 <= i < |s| ==> s[i] == c
  }

  lemma AllOfConcat(a: string, b: string, c: char)
    ensures AllOf(a + b, c) <==> AllOf(a, c) && AllOf(b, c)
  {
    if AllOf(a, c) && AllOf(b, c) {
      forall i | 0 <= i < |a + b|
        ensures (a + b)[i] == c
      {
        if i >= |a| {
          assert (a + b)[i] == b[i - |a|];
        }
      }
    }
    if AllOf(a + b, c) {
      forall i | 0 <= i < |a|
        ensures a[i] == c
      {
        assert (a + b)[i] == a[i];
      }
      forall i | 0 <= i < |b|
        ensures b[i] == c
      {
        assert (a + b)[i + |a|] == b[i];
      }
    }
  }

  lemma {:induction false} AllEmptyJoin(parts: seq<string>, sep: char)
    requires |parts| >= 1
    requires forall i :: 0 <= i < |parts| ==> sep !in parts[i]
    ensures |NonEmptyParts(parts)| == 0 <==> AllOf(Join(parts, sep), sep)
  {
    var head := parts[0];
    assert sep !in head;
    assert AllOf(head, sep) <==> head == "" by {
      if head != "" {
        assert head[0] in head;
      }
    }
    if |parts| > 1 {
      AllEmptyJoin(parts[1..], sep);
      var tail := Join(parts[1..], sep);
      assert Join(parts, sep) == head + ([sep] + tail);
      AllOfConcat(head, [sep] + tail, sep);
      AllOfConcat([sep], tail, sep);
    }
  }

  /**
   A segment that starts the string or follows a `/`, followed by nothing but
   slashes, is what `LastSegment` returns, whatever precedes it.
   */
  lemma SegmentOfPath(base: string, segment: string, tail: string)
    requires base == "" || base[|base| - 1] == '/'
    requires segment != "" && '/' !in segment
    requires AllOf(tail, '/')
    ensures LastSegment(base + segment + tail) == Some(segment)
  {
    var s := base + segment + tail;
    var own := segment + tail;
    assert own[0..|segment|] == segment && own[|segment|..] == tail;
    assert SegmentEndsAt(own, segment, 0);
    if base == "" {
      assert s == own;
    } else {
      assert s == base + own;
      ShiftSegment(base, own, segment, 0);
    }
    assert s[|base|] == segment[0] && segment[0] in segment;
    var r := LastSegment(s);
    LastSegmentIsLast(s);
    var k: nat :| SegmentEndsAt(s, r.value, k);
    SegmentUnique(s, r.value, segment, k, |base|);
  }

  /** The URL shapes the upstream uses: with or without trailing slashes, or a bare segment. */
  lemma SegmentOfPathShapes(collection: string, segment: string)
    requires segment != "" && '/' !in segment
    ensures LastSegment(collection + "/" + segment) == Some(segment)
    ensures LastSegment(collection + "/" + segment + "/") == Some(segment)
    ensures LastSegment(collection + "/" + segment + "//") == Some(segment)
    ensures LastSegment(segment) == Some(segment)
  {
    var base := collection + "/";
    SegmentOfPath(base, segment, "");
    assert base + segment + "" == collection + "/" + segment;
    SegmentOfPath(base, segment, "/");
    SegmentOfPath(base, segment, "//");
    SegmentOfPath("", segment, "");
    assert "" + segment + "" == segment;
  }

  // ---------------------------------------------------------------------------
  // Decimal numbers
  // ---------------------------------------------------------------------------

  predicate IsDigit(c: char) {
    '0' <= c <= '9'
  }

  /** A non-empty run of decimal digits. */
  predicate IsDigits(s: string) {
    |s| > 0 && forall i :: 0 <= i < |s| ==> IsDigit(s[i])
  }

  function DigitValue(c: char): (d: nat)
    requires IsDigit(c)
    ensures d < 10
  {
    c as int - '0' as int
  }

  function DigitChar(d: nat): (c: char)
    requires d < 10
    ensures IsDigit(c) && DigitValue(c) == d
  {
    ('0' as int + d) as char
  }

  /** `parseInt(s, 10)` on a string of digits; leading zeros are allowed. */
  function ParseDecimal(s: string): (n: nat)
    requires forall i :: 0 <= i < |s| ==> IsDigit(s[i])
  {
    if |s| == 0 then 0
    else ParseDecimal(s[..|s| - 1]) * 10 + DigitValue(s[|s| - 1])
  }

  /** The decimal form of a natural number: digits only, no leading zero. */
  function NatToString(n: nat): (s: string)
    ensures IsDigits(s)
    ensures n > 0 || |s| > 1 ==> s[0] != '0'
  {
    if n < 10 then [DigitChar(n)] else NatToString(n / 10) + [DigitChar(n % 10)]
  }

  /** JavaScript `String(i)` for an integer. */
  function IntToString(i: int): string {
    if i < 0 then "-" + NatToString(-i) else NatToString(i)
  }

  /** Printing then parsing gives the number back. */
  lemma {:induction false} ParsePrinted(n: nat)
    ensures ParseDecimal(NatToString(n)) == n
  {
    if n >= 10 {
      ParsePrinted(n / 10);
      var s := NatToString(n);
      assert s[..|s| - 1] == NatToString(n / 10);
    }
  }

  lemma {:induction false} ParsePositive(s: string)
    requires IsDigits(s) && s[0] != '0'
    ensures ParseDecimal(s) >= 1
  {
    if |s| > 1 {
      ParsePositive(s[..|s| - 1]);
    }
  }

  /** Parsing then printing gives back any digit string without a leading zero. */
  lemma {:induction false} PrintParsed(s: string)
    requires IsDigits(s) && (|s| == 1 || s[0] != '0')
    ensures NatToString(ParseDecimal(s)) == s
  {
    if |s| > 1 {
      var front := s[..|s| - 1];
      ParsePositive(front);
      PrintParsed(front);
      var n := ParseDecimal(s);
      assert n / 10 == ParseDecimal(front) && n % 10 == DigitValue(s[|s| - 1]);
      assert s == front + [s[|s| - 1]];
    }
  }

  /** A JavaScript number as `parseInt` produces it: `NaN` or an integer. */
  datatype JsNumber = NaN | Num(value: int)

  /**
   The characters `parseInt` skips before the number: the white space and line
   terminators of section 12.2 and 12.3 of ECMA-262.
   */
  predicate IsJsSpace(c: char) {
    || c == '\t' || c == '\n' || c == '\U{000B}' || c == '\U{000C}' || c == '\r' || c == ' '
    || c == '\U{00A0}' || c == '\U{1680}' || ('\U{2000}' <= c <= '\U{200A}')
    || c == '\U{2028}' || c == '\U{2029}' || c == '\U{202F}' || c == '\U{205F}'
    || c == '\U{3000}' || c == '\U{FEFF}'
  }

  /** The string without its leading white space. */
  function TrimStart(s: string): (r: string)
    ensures |r| <= |s| && r == s[|s| - |r|..]
    ensures forall i :: 0 <= i < |s| - |r| ==> IsJsSpace(s[i])
    ensures r == "" || !IsJsSpace(r[0])
  {
    if |s| > 0 && IsJsSpace(s[0]) then TrimStart(s[1..]) else s
  }

  /** The longest prefix of `s` made of decimal digits. */
  function DigitPrefix(s: string): (r: string)
    ensures |r| <= |s| && r == s[..|r|]
    ensures forall i :: 0 <= i < |r| ==> IsDigit(r[i])
    ensures |r| == |s| || !IsDigit(s[|r|])
  {
    if |s| > 0 && IsDigit(s[0]) then [s[0]] + DigitPrefix(s[1..]) else ""
  }

  /**
   JavaScript `parseInt(s, 10)` (section 19.2.5 of ECMA-262): leading white
   space is skipped, one `+` or `-` is read, and the longest run of digits that
   follows is the magnitude; without a digit there the result is `NaN`.
   */
  function ParseInt(s: string): (n: JsNumber)
    ensures s == "" ==> n == NaN
    ensures NoNumberStart(s) ==> n == NaN
  {
    var t := TrimStart(s);
    assert NoNumberStart(s) ==> ParseSigned(t) == NaN by {
      if NoNumberStart(s) {
        NoNumberHere(s);
      }
    }
    ParseSigned(t)
  }

  /** `s` starts with a character that is neither white space, a sign nor a digit. */
  predicate NoNumberStart(s: string) {
    |s| > 0 && !IsJsSpace(s[0]) && !IsDigit(s[0]) && s[0] != '+' && s[0] != '-'
  }

  lemma NoNumberHere(s: string)
    requires NoNumberStart(s)
    ensures TrimStart(s) == s && ParseSigned(s) == NaN
  {
    assert DigitPrefix(s) == "";
  }

  /** `parseInt` after the white space: an optional sign, then the digits. */
  function ParseSigned(t: string): JsNumber {
    var negative := |t| > 0 && t[0] == '-';
    var unsigned := if |t| > 0 && (t[0] == '+' || t[0] == '-') then t[1..] else t;
    var digits := DigitPrefix(unsigned);
    if digits == "" then NaN
    else if negative then Num(-(ParseDecimal(digits) as int))
    else Num(ParseDecimal(digits))
  }

  /** The digit prefix of digits followed by a non-digit is those digits. */
  lemma {:induction false} DigitPrefixStops(digits: string, rest: string)
    requires forall i :: 0 <= i < |digits| ==> IsDigit(digits[i])
    requires rest == "" || !IsDigit(rest[0])
    ensures DigitPrefix(digits + rest) == digits
  {
    if |digits| > 0 {
      assert (digits + rest)[1..] == digits[1..] + rest;
      DigitPrefixStops(digits[1..], rest);
      assert digits == [digits[0]] + digits[1..];
    } else {
      assert digits + rest == rest;
    }
  }

  /**
   A sign followed by digits reads as the signed value of the digits, whatever
   non-digit text follows (`"+25"` is 25, `"-25abc"` is -25).
   */
  lemma ParseIntSigned(digits: string, rest: string)
    requires IsDigits(digits)
    requires rest == "" || !IsDigit(rest[0])
    ensures ParseInt("+" + digits + rest) == Num(ParseDecimal(digits))
    ensures ParseInt("-" + digits + rest) == Num(-(ParseDecimal(digits) as int))
  {
    SignThenDigits('+', digits, rest);
    SignThenDigits('-', digits, rest);
    assert "+" + digits + rest == ['+'] + digits + rest;
    assert "-" + digits + rest == ['-'] + digits + rest;
  }

  lemma SignThenDigits(sign: char, digits: string, rest: string)
    requires sign == '+' || sign == '-'
    requires IsDigits(digits)
    requires rest == "" || !IsDigit(rest[0])
    ensures ParseInt([sign] + digits + rest) ==
            if sign == '-' then Num(-(ParseDecimal(digits) as int)) else Num(ParseDecimal(digits))
  {
    var s := [sign] + digits + rest;
    assert s[0] == sign && !IsJsSpace(sign);
    assert TrimStart(s) == s;
    assert s[1..] == digits + rest;
    DigitPrefixStops(digits, rest);
  }

  /**
   A sign with no digit right after it reads as `NaN`: `"+"`, `"-"` and `"-x"`
   have no number in them.
   */
  lemma SignWithoutDigits(sign: char, rest: string)
    requires sign == '+' || sign == '-'
    requires rest == "" || !IsDigit(rest[0])
    ensures ParseInt([sign] + rest) == NaN
  {
    var s := [sign] + rest;
    assert s[0] == sign && !IsJsSpace(sign);
    assert TrimStart(s) == s;
    assert s[1..] == rest;
    DigitPrefixStops("", rest);
    assert "" + rest == rest;
  }

  /** `parseInt` stops at the first character that is not a digit: `"25abc"` reads as 25. */
  lemma ParseIntIgnoresTail(digits: string, rest: string)
    requires IsDigits(digits)
    requires rest == "" || !IsDigit(rest[0])
    ensures ParseInt(digits + rest) == Num(ParseDecimal(digits))
  {
    var s := digits + rest;
    assert s[0] == digits[0];
    DigitStartsNumber(s[0]);
    assert TrimStart(s) == s;
    DigitPrefixStops(digits, rest);
    assert ParseSigned(s) == Num(ParseDecimal(digits));
  }

  lemma DigitStartsNumber(c: char)
    requires IsDigit(c)
    ensures !IsJsSpace(c) && c != '+' && c != '-'
  {
  }

  /** A string of digits reads as its decimal value. */
  lemma ParseIntDigits(s: string)
    requires IsDigits(s)
    ensures ParseInt(s) == Num(ParseDecimal(s))
  {
    ParseIntIgnoresTail(s, "");
    assert s + "" == s;
  }

  /** `parseInt(undefined, 10)` reads the text `"undefined"` and finds no number. */
  lemma ParseIntOfUndefined()
    ensures ParseInt("undefined") == NaN
  {
    assert NoNumberStart("undefined");
  }

  /** Printing an integer and parsing it back gives the integer. */
  lemma ParseIntPrinted(i: int)
    ensures ParseInt(IntToString(i)) == Num(i)
  {
    if i < 0 {
      var d := NatToString(-i);
      var s := "-" + d;
      assert TrimStart(s) == s;
      assert s[1..] == d;
      DigitPrefixStops(d, "");
      assert d + "" == d;
      ParsePrinted(-i);
    } else {
      ParseIntDigits(NatToString(i));
      ParsePrinted(i);
    }
  }

  /** Leading white space does not change what `parseInt` reads. */
  lemma ParseIntSkipsSpace(space: string, s: string)
    requires forall i :: 0 <= i < |space| ==> IsJsSpace(space[i])
    ensures ParseInt(space + s) == ParseInt(s)
  {
    TrimStartSkips(space, s);
  }

  lemma {:induction false} TrimStartSkips(space: string, s: string)
    requires forall i :: 0 <= i < |space| ==> IsJsSpace(space[i])
    ensures TrimStart(space + s) == TrimStart(s)
    decreases |space|
  {
    if |space| > 0 {
      assert (space + s)[0] == space[0];
      assert (space + s)[1..] == space[1..] + s;
      TrimStartSkips(space[1..], s);
    } else {
      assert space + s == s;
    }
  }

  // ---------------------------------------------------------------------------
  // Padding
  // ---------------------------------------------------------------------------

  /** JavaScript `s.padStart(width, pad)` for a one-character pad. */
  function PadStart(s: string, width: nat, pad: char): (r: string)
    ensures |r| == if |s| >= width then |s| else width
    ensures r[|r| - |s|..] == s
    ensures forall i :: 0 <= i < |r| - |s| ==> r[i] == pad
  {
    if |s| >= width then s else seq(width - |s|, _ => pad) + s
  }

  /** The string without its leading `'0'` characters. */
  function StripLeadingZeros(s: string): (r: string)
    ensures |r| <= |s| && r == s[|s| - |r|..]
    ensures r == "" || r[0] != '0'
  {
    if |s| > 0 && s[0] == '0' then StripLeadingZeros(s[1..]) else s
  }

  lemma {:induction false} StripZeroPrefix(zeros: string, s: string)
    requires forall i :: 0 <= i < |zeros| ==> zeros[i] == '0'
    ensures StripLeadingZeros(zeros + s) == StripLeadingZeros(s)
  {
    if |zeros| > 0 {
      assert (zeros + s)[1..] == zeros[1..] + s;
      StripZeroPrefix(zeros[1..], s);
    } else {
      assert zeros + s == s;
    }
  }

  /** Leading zeros do not change the value `parseInt` reads. */
  lemma {:induction false} ParseZeroPrefix(zeros: string, s: string)
    requires forall i :: 0 <= i < |zeros| ==> zeros[i] == '0'
    requires forall i :: 0 <= i < |s| ==> IsDigit(s[i])
    ensures ParseDecimal(zeros + s) == ParseDecimal(s)
    decreases |zeros| + |s|
  {
    if |s| == 0 {
      assert zeros + s == zeros;
      if |zeros| > 0 {
        ParseZeroPrefix(zeros[..|zeros| - 1], "");
        assert zeros[..|zeros| - 1] + "" == zeros[..|zeros| - 1];
      }
    } else {
      var t := zeros + s;
      assert t[..|t| - 1] == zeros + s[..|s| - 1];
      assert t[|t| - 1] == s[|s| - 1];
      ParseZeroPrefix(zeros, s[..|s| - 1]);
    }
  }
}
