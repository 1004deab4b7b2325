/**
 * The Python string operations the report scripts rely on, on `string`
 * (a `seq<char>`): slicing with negative and out-of-range bounds, the `in`
 * substring test, `str.split` on one delimiter, `str.replace`, `str.isdigit`,
 * `str.lower`, `str.strip`, `int()` and the ordering `<` of strings.
 * Only the ASCII behaviour of the character classes is modelled.
 */
module PyStr {
  import opened Wrappers

  function Min(a: int, b: int): int { if a <= b then a else b }

  // ---------------------------------------------------------------------
  // Slicing
  // ---------------------------------------------------------------------

  /** Where a slice bound `i` lands in a sequence of length `n`: negative
      bounds count from the end, and bounds outside the sequence are clamped. */
  function SliceBound(i: int, n: nat): (b: nat)
    ensures b <= n
  {
    if i < 0 then (if n + i < 0 then 0 else n + i)
    else if i > n then n
    else i
  }

  /** `s[lo:hi]`: empty whenever the normalised bounds cross. */
  function Slice<T>(s: seq<T>, lo: int, hi: int): (r: seq<T>)
    ensures |r| <= |s|
  {
    var a, b := SliceBound(lo, |s|), SliceBound(hi, |s|);
    if a < b then s[a..b] else []
  }

  predicate StartsWith(s: string, p: string)
  {
    |p| <= |s| && s[..|p|] == p
  }

  predicate EndsWith(s: string, p: string)
  {
    |p| <= |s| && s[|s| - |p|..] == p
  }

  /** `s[:len(p)] == p` is the prefix test, also for `s` shorter than `p`. */
  lemma PrefixSliceTest(s: string, p: string)
    ensures Slice(s, 0, |p|) == p <==> StartsWith(s, p)
  {
    if |s| < |p| {
      assert |Slice(s, 0, |p|)| <= |s|;
    }
  }

  /** `s[-len(p):] == p` is the suffix test, also for `s` shorter than `p`
      (the slice is then the whole of `s`). */
  lemma SuffixSliceTest(s: string, p: string)
    requires |p| > 0
    ensures Slice(s, -|p|, |s|) == p <==> EndsWith(s, p)
  {
    if |s| < |p| {
      assert |Slice(s, -|p|, |s|)| <= |s|;
    }
  }

  // ---------------------------------------------------------------------
  // Substring test: `sub in s`
  // ---------------------------------------------------------------------

  predicate IsInfix(sub: string, s: string)
    decreases |s|
  {
    StartsWith(s, sub) || (|s| > 0 && IsInfix(sub, s[1..]))
  }

  /** `sub` occurs in `s` starting at position `i`. */
  predicate OccursAt(sub: string, s: string, i: int)
  {
    0 <= i && i + |sub| <= |s| && s[i..i + |sub|] == sub
  }

  /** `sub in s` holds exactly when `sub` occurs at some position of `s`. */
  lemma {:induction false} InfixOccurs(sub: string, s: string)
    ensures IsInfix(sub, s) <==> exists i :: OccursAt(sub, s, i)
    decreases |s|
  {
    if StartsWith(s, sub) {
      assert OccursAt(sub, s, 0);
    } else if |s| > 0 {
      InfixOccurs(sub, s[1..]);
      if IsInfix(sub, s[1..]) {
        var i :| OccursAt(sub, s[1..], i);
        assert s[1..][i..i + |sub|] == s[i + 1..i + 1 + |sub|];
        assert OccursAt(sub, s, i + 1);
      }
      if exists i :: OccursAt(sub, s, i) {
        var i :| OccursAt(sub, s, i);
        assert i != 0;
        assert s[1..][i - 1..i - 1 + |sub|] == s[i..i + |sub|];
        assert OccursAt(sub, s[1..], i - 1);
      }
    } else {
      assert |sub| > 0;
    }
  }

  // ---------------------------------------------------------------------
  // Splitting on one delimiter: `re.split(d, s)` / `s.split(d)`
  // ---------------------------------------------------------------------

  /** The pieces of `s` between occurrences of `d`; there is always one
      more piece than there are delimiters, so `""` splits into `[""]`. */
  function Split(s: string, d: char): (r: seq<string>)
    ensures |r| >= 1
    decreases |s|
  {
    if |s| == 0 then [""]
    else
      var rest := Split(s[1..], d);
      if s[0] == d then [""] + rest
      else [[s[0]] + rest[0]] + rest[1..]
  }

  /** `d.join(ts)`. */
  function Join(ts: seq<string>, d: char): string
    decreases |ts|
  {
    if |ts| == 0 then ""
    else if |ts| == 1 then ts[0]
    else ts[0] + [d] + Join(ts[1..], d)
  }

  /** No piece of a split contains the delimiter. */
  lemma {:induction false} SplitPiecesFree(s: string, d: char)
    ensures forall t :: t in Split(s, d) ==> d !in t
    decreases |s|
  {
    if |s| > 0 {
      SplitPiecesFree(s[1..], d);
      var rest := Split(s[1..], d);
      if s[0] != d {
        assert d !in rest[0];
        assert forall t :: t in rest[1..] ==> t in rest;
      }
    }
  }

  /** Joining the pieces with the delimiter gives back the string. */
  lemma {:induction false} JoinSplit(s: string, d: char)
    ensures Join(Split(s, d), d) == s
    decreases |s|
  {
    if |s| > 0 {
      JoinSplit(s[1..], d);
      var rest := Split(s[1..], d);
      if s[0] == d {
        assert Split(s, d) == [""] + rest;
        assert ([""] + rest)[1..] == rest;
        assert s == [d] + s[1..];
      } else {
        var r := Split(s, d);
        assert r[0] == [s[0]] + rest[0];
        assert r[1..] == rest[1..];
        if |rest| == 1 {
          assert s == [s[0]] + rest[0];
        } else {
          assert Join(rest, d) == rest[0] + [d] + Join(rest[1..], d);
          assert s == [s[0]] + s[1..];
        }
      }
    }
  }

  /** Splitting a join of delimiter-free pieces gives back the pieces. */
  lemma {:induction false} SplitJoin(ts: seq<string>, d: char)
    requires |ts| >= 1
    requires forall t :: t in ts ==> d !in t
    ensures Split(Join(ts, d), d) == ts
    decreases |ts|, |ts[0]|
  {
    if |ts[0]| > 0 {
      var c := ts[0][0];
      assert c != d by { assert c in ts[0]; }
      var ts' := [ts[0][1..]] + ts[1..];
      forall t | t in ts' ensures d !in t {
        if t == ts[0][1..] {
          assert forall x :: x in ts[0][1..] ==> x in ts[0];
        } else {
          assert t in ts;
        }
      }
      SplitJoin(ts', d);
      JoinFirstChar(ts, d);
      SplitFirstChar(c, Join(ts', d), d);
      assert ts'[0] == ts[0][1..] && ts'[1..] == ts[1..];
      assert ts[0] == [c] + ts[0][1..];
      assert ts == [ts[0]] + ts[1..];
    } else if |ts| > 1 {
      SplitJoin(ts[1..], d);
      assert Join(ts, d) == [d] + Join(ts[1..], d);
      assert ts == [""] + ts[1..];
    }
  }

  /** A join whose first piece is not empty starts with that piece's first
      character, followed by the join with that character removed. */
  lemma JoinFirstChar(ts: seq<string>, d: char)
    requires |ts| >= 1 && |ts[0]| > 0
    ensures Join(ts, d) == [ts[0][0]] + Join([ts[0][1..]] + ts[1..], d)
  {
    var ts' := [ts[0][1..]] + ts[1..];
    assert ts'[1..] == ts[1..];
    assert ts[0] == [ts[0][0]] + ts[0][1..];
  }

  /** A character other than the delimiter joins the first piece. */
  lemma SplitFirstChar(c: char, s: string, d: char)
    requires c != d
    ensures Split([c] + s, d) == [[c] + Split(s, d)[0]] + Split(s, d)[1..]
  {
    assert ([c] + s)[1..] == s;
  }

  // ---------------------------------------------------------------------
  // Replacement: `s.replace(pat, rep)`
  // ---------------------------------------------------------------------

  /** Every non-overlapping occurrence of `pat`, scanned from the left, is
      replaced by `rep`. */
  function ReplaceAll(s: string, pat: string, rep: string): string
    requires |pat| > 0
    decreases |s|
  {
    if |s| == 0 then ""
    else if StartsWith(s, pat) then rep + ReplaceAll(s[|pat|..], pat, rep)
    else [s[0]] + ReplaceAll(s[1..], pat, rep)
  }

  /** A string without the pattern is left as it is. */
  lemma {:induction false} ReplaceAbsent(s: string, pat: string, rep: string)
    requires |pat| > 0
    requires !IsInfix(pat, s)
    ensures ReplaceAll(s, pat, rep) == s
    decreases |s|
  {
    if |s| > 0 {
      ReplaceAbsent(s[1..], pat, rep);
      assert s == [s[0]] + s[1..];
    }
  }

  /** Replacing ".py" in `stem + ".py"` only touches the final extension when
      `stem` does not itself contain ".py" (no occurrence can straddle the
      boundary, because ".py" has no border). */
  lemma {:induction false} ReplaceExtension(stem: string, rep: string)
    requires !IsInfix(".py", stem)
    ensures ReplaceAll(stem + ".py", ".py", rep) == stem + rep
    decreases |stem|
  {
    var s := stem + ".py";
    if |stem| == 0 {
      assert s == ".py";
      assert StartsWith(s, ".py");
      assert s[3..] == "";
    } else {
      ExtensionNotAtFront(stem);
      calc {
        ReplaceAll(s, ".py", rep);
        [s[0]] + ReplaceAll(s[1..], ".py", rep);
        { assert s[1..] == stem[1..] + ".py"; ReplaceExtension(stem[1..], rep); }
        [stem[0]] + (stem[1..] + rep);
        { assert stem == [stem[0]] + stem[1..]; }
        stem + rep;
      }
    }
  }

  /** With no ".py" in a non-empty `stem`, no occurrence starts at the front
      of `stem + ".py"`, and the tail of `stem` has none either. */
  lemma {:induction false} ExtensionNotAtFront(stem: string)
    requires |stem| > 0 && !IsInfix(".py", stem)
    ensures !StartsWith(stem + ".py", ".py")
    ensures !IsInfix(".py", stem[1..])
  {
    var s := stem + ".py";
    if |stem| == 1 {
      assert s[1] == '.';
    } else if |stem| == 2 {
      assert s[2] == '.';
    } else {
      assert s[..3] == stem[..3];
    }
  }

  // ---------------------------------------------------------------------
  // Character classes, lower-casing and stripping
  // ---------------------------------------------------------------------

  predicate IsDigitChar(c: char) { '0' <= c <= '9' }

  /** `s.isdigit()`: non-empty and all (ASCII) digits. */
  predicate IsDigits(s: string)
  {
    |s| > 0 && forall i :: 0 <= i < |s| ==> IsDigitChar(s[i])
  }

  /** The ASCII characters `str.isspace` accepts. */
  predicate IsSpace(c: char)
  {
    c == ' ' || ('\t' <= c <= '\r') || ('\U{1c}' <= c <= '\U{1f}')
  }

  function LowerChar(c: char): char
  {
    if 'A' <= c <= 'Z' then (c as int + 32) as char else c
  }

  /** `s.lower()` on ASCII letters. */
  function Lower(s: string): (r: string)
    ensures |r| == |s|
  {
    seq(|s|, i requires 0 <= i < |s| => LowerChar(s[i]))
  }

  /** Lower-casing leaves no upper-case letter, changes only upper-case
      letters, and a second pass changes nothing. */
  lemma LowerSpec(s: string)
    ensures forall i :: 0 <= i < |s| ==> !('A' <= Lower(s)[i] <= 'Z')
    ensures forall i :: 0 <= i < |s| && !('A' <= s[i] <= 'Z') ==> Lower(s)[i] == s[i]
    ensures Lower(Lower(s)) == Lower(s)
  {
  }

  function TrimStart(s: string): string
    decreases |s|
  {
    if |s| > 0 && IsSpace(s[0]) then TrimStart(s[1..]) else s
  }

  function TrimEnd(s: string): string
    decreases |s|
  {
    if |s| > 0 && IsSpace(s[|s| - 1]) then TrimEnd(s[..|s| - 1]) else s
  }

  /** `s.strip()`. */
  function Strip(s: string): string
  {
    TrimStart(TrimEnd(s))
  }

  /** `strip()` removes only whitespace: the result is the piece `s[i..j]`
      of `s`, and it neither begins nor ends with whitespace. */
  lemma {:induction false} StripPiece(s: string) returns (i: nat, j: nat)
    ensures i <= j <= |s| && Strip(s) == s[i..j]
    ensures i < j ==> !IsSpace(s[i]) && !IsSpace(s[j - 1])
    ensures forall k :: 0 <= k < i ==> IsSpace(s[k])
    ensures forall k :: j <= k < |s| ==> IsSpace(s[k])
  {
    j := TrimEndPiece(s);
    var t := s[..j];
    i := TrimStartPiece(t);
    calc {
      Strip(s);
      TrimStart(t);
      t[i..];
      { assert t[i..] == s[i..j]; }
      s[i..j];
    }
    forall k | 0 <= k < i ensures IsSpace(s[k]) {
      assert t[k] == s[k];
    }
    if i < j {
      assert t[i] == s[i] && t[j - 1] == s[j - 1];
    }
  }

  lemma {:induction false} TrimEndPiece(s: string) returns (e: nat)
    ensures e <= |s| && TrimEnd(s) == s[..e]
    ensures e > 0 ==> !IsSpace(s[e - 1])
    ensures forall k :: e <= k < |s| ==> IsSpace(s[k])
    decreases |s|
  {
    if |s| > 0 && IsSpace(s[|s| - 1]) {
      e := TrimEndPiece(s[..|s| - 1]);
      assert forall k :: e <= k < |s| - 1 ==> s[..|s| - 1][k] == s[k];
    } else {
      e := |s|;
    }
  }

  lemma {:induction false} TrimStartPiece(s: string) returns (b: nat)
    ensures b <= |s| && TrimStart(s) == s[b..]
    ensures b < |s| ==> !IsSpace(s[b])
    ensures forall k :: 0 <= k < b ==> IsSpace(s[k])
    decreases |s|
  {
    if |s| > 0 && IsSpace(s[0]) {
      var b' := TrimStartPiece(s[1..]);
      b := b' + 1;
      assert forall k :: 1 <= k < b ==> s[k] == s[1..][k - 1];
    } else {
      b := 0;
    }
  }

  // ---------------------------------------------------------------------
  // Integers: `int(s)` and `str(i)`
  // ---------------------------------------------------------------------

  /** The value of a run of decimal digits, most significant first. */
  function DigitsValue(ds: string): nat
    decreases |ds|
  {
    if |ds| == 0 then 0
    else
      var d := ds[|ds| - 1] as int - '0' as int;
      10 * DigitsValue(ds[..|ds| - 1]) + (if 0 <= d then d else 0)
  }

  /** `int(s)`: surrounding whitespace, an optional sign, then at least one
      digit; anything else is a `ValueError`, modelled as `None`. */
  function ParseInt(s: string): Option<int>
  {
    var t := Strip(s);
    if |t| > 0 && (t[0] == '-' || t[0] == '+') then
      if IsDigits(t[1..]) then
        Some(if t[0] == '-' then -(DigitsValue(t[1..]) as int) else DigitsValue(t[1..]))
      else None
    else if IsDigits(t) then Some(DigitsValue(t))
    else None
  }

  /** The canonical decimal spelling of a natural number. */
  function Decimal(n: nat): string
    decreases n
  {
    var c := ('0' as int + n % 10) as char;
    if n < 10 then [c] else Decimal(n / 10) + [c]
  }

  /** `str(i)`. */
  function IntToString(i: int): string
  {
    if i < 0 then "-" + Decimal(-i) else Decimal(i)
  }

  lemma {:induction false} DecimalDigits(n: nat)
    ensures IsDigits(Decimal(n)) && DigitsValue(Decimal(n)) == n
    decreases n
  {
    var c := ('0' as int + n % 10) as char;
    if n >= 10 {
      DecimalDigits(n / 10);
      var ds := Decimal(n);
      assert ds == Decimal(n / 10) + [c];
      assert ds[..|ds| - 1] == Decimal(n / 10);
    }
  }

  /** `int(str(i)) == i`. */
  lemma ParseIntRoundTrip(i: int)
    ensures ParseInt(IntToString(i)) == Some(i)
  {
    var s := IntToString(i);
    var m := if i < 0 then -i else i;
    DecimalDigits(m);
    assert !IsSpace(s[0]) && !IsSpace(s[|s| - 1]);
    assert TrimEnd(s) == s;
    assert TrimStart(s) == s;
    if i < 0 {
      assert s[1..] == Decimal(m);
    }
  }

  // ---------------------------------------------------------------------
  // String ordering: `a < b`
  // ---------------------------------------------------------------------

  /** Python's `<` on strings: code point by code point, and a proper
      prefix comes first. */
  predicate LexLess(a: string, b: string)
    decreases |a|
  {
    |b| > 0 && (|a| == 0 || a[0] < b[0] || (a[0] == b[0] && LexLess(a[1..], b[1..])))
  }

  lemma {:induction false} LexLessIrreflexive(a: string)
    ensures !LexLess(a, a)
    decreases |a|
  {
    if |a| > 0 {
      LexLessIrreflexive(a[1..]);
    }
  }

  lemma {:induction false} LexLessAsymmetric(a: string, b: string)
    ensures !(LexLess(a, b) && LexLess(b, a))
    decreases |a|
  {
    if |a| > 0 && |b| > 0 && a[0] == b[0] {
      LexLessAsymmetric(a[1..], b[1..]);
    }
  }

  lemma {:induction false} LexLessTransitive(a: string, b: string, c: string)
    requires LexLess(a, b) && LexLess(b, c)
    ensures LexLess(a, c)
    decreases |a|
  {
    if |a| > 0 && a[0] == b[0] == c[0] {
      LexLessTransitive(a[1..], b[1..], c[1..]);
    }
  }

  lemma {:induction false} LexLessTotal(a: string, b: string)
    requires a != b
    ensures LexLess(a, b) || LexLess(b, a)
    decreases |a|
  {
    if |a| > 0 && |b| > 0 && a[0] == b[0] {
      assert a == [a[0]] + a[1..] && b == [b[0]] + b[1..];
      LexLessTotal(a[1..], b[1..]);
    }
  }

  /** A non-empty finite set of strings has a least element. */
  lemma {:induction false} LeastStringExists(s: set<string>)
    requires s != {}
    ensures exists k :: k in s && forall j :: j in s && j != k ==> LexLess(k, j)
  {
    var k := LeastString(s);
  }

  /** The least element of a non-empty finite set of strings. */
  lemma {:induction false} LeastString(s: set<string>) returns (k: string)
    requires s != {}
    ensures k in s && forall j :: j in s && j != k ==> LexLess(k, j)
    decreases |s|
  {
    var x :| x in s;
    if s == {x} {
      k := x;
    } else {
      var rest := s - {x};
      var m := LeastString(rest);
      LexLessTotal(m, x);
      if LexLess(x, m) {
        k := x;
        forall j | j in s && j != x ensures LexLess(x, j) {
          if j != m {
            LexLessTransitive(x, m, j);
          }
        }
      } else {
        k := m;
      }
    }
  }

}
