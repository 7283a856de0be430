/** The handful of Python `str` operations the backend relies on, with the
    semantics CPython gives them: `find`, `split(sep)`, `sep.join(parts)`,
    `strip()`, ASCII `lower()`/`title()`, and `str(n)` for a natural number.
    A Python `str` is a sequence of code points; a Dafny `string` (with
    Unicode characters, the Dafny 4 default) is the same thing minus the
    surrogate range: these operations are modelled for text without lone
    surrogates. */
module PyText {

  // ---------------------------------------------------------------------
  // Occurrences of a separator
  // ---------------------------------------------------------------------

  /** `sep` occurs in `s` starting at position `p`. */
  predicate OccursAt(s: string, sep: string, p: nat) {
    p + |sep| <= |s| && s[p..p + |sep|] == sep
  }

  /** `sep in s`, Python's substring test. */
  predicate Contains(s: string, sep: string) {
    exists p: nat | p <= |s| :: OccursAt(s, sep, p)
  }

  lemma OccursShift(s: string, sep: string, p: nat)
    requires |s| > 0
    ensures OccursAt(s[1..], sep, p) <==> OccursAt(s, sep, p + 1)
  {
    if p + 1 + |sep| <= |s| {
      assert s[1..][p..p + |sep|] == s[p + 1..p + 1 + |sep|];
    }
  }

  /** `s.find(sep)`: a position where `sep` occurs, or -1 (`FindLeftmost`
      shows the position is the leftmost one). */
  function Find(s: string, sep: string): (r: int)
    ensures r == -1 || (0 <= r && OccursAt(s, sep, r))
    decreases |s|
  {
    if |s| < |sep| then -1
    else if s[..|sep|] == sep then 0
    else
      var k := Find(s[1..], sep);
      if k < 0 then -1
      else
        OccursShift(s, sep, k);
        k + 1
  }

  /** `Find` returns the leftmost occurrence, and -1 exactly when there is
      none. */
  lemma {:induction false} FindLeftmost(s: string, sep: string)
    ensures Find(s, sep) >= 0 ==> forall p: nat :: p < Find(s, sep) ==> !OccursAt(s, sep, p)
    ensures Find(s, sep) == -1 <==> !Contains(s, sep)
    decreases |s|
  {
    if |s| < |sep| {
      assert forall p: nat :: !OccursAt(s, sep, p);
    } else if s[..|sep|] != sep {
      FindLeftmost(s[1..], sep);
      FindStep(s, sep, Find(s[1..], sep));
    }
  }

  /** The facts about the recursive call of `Find` that `FindLeftmost`
      needs. */
  lemma FindStep(s: string, sep: string, k: int)
    requires |s| >= |sep| && s[..|sep|] != sep
    requires k == -1 || (0 <= k && OccursAt(s[1..], sep, k))
    requires k >= 0 ==> forall p: nat :: p < k ==> !OccursAt(s[1..], sep, p)
    requires k == -1 <==> !Contains(s[1..], sep)
    ensures k >= 0 ==> forall p: nat :: p < k + 1 ==> !OccursAt(s, sep, p)
    ensures k < 0 <==> !Contains(s, sep)
  {
    assert !OccursAt(s, sep, 0);
    if k >= 0 {
      OccursShift(s, sep, k);
      forall p: nat | p < k + 1 ensures !OccursAt(s, sep, p) {
        if p > 0 { OccursShift(s, sep, p - 1); }
      }
    } else {
      forall p: nat ensures !OccursAt(s, sep, p) {
        if p > 0 { OccursShift(s, sep, p - 1); }
      }
    }
  }

  // ---------------------------------------------------------------------
  // join and split
  // ---------------------------------------------------------------------

  /** `sep.join(parts)`. */
  function Join(sep: string, parts: seq<string>): string
    decreases |parts|
  {
    if |parts| == 0 then ""
    else if |parts| == 1 then parts[0]
    else parts[0] + sep + Join(sep, parts[1..])
  }

  /** Cutting `piece` off the front of `piece + sep + rest` is what a
      leftmost scan for `sep` does: `sep` occurs nowhere before `|piece|`. */
  predicate LeftmostCut(piece: string, sep: string) {
    forall p: nat :: p < |piece| ==> !OccursAt(piece + sep, sep, p)
  }

  /** `s.split(sep)` for a non-empty separator: scans left to right, cuts at
      each leftmost non-overlapping occurrence and keeps empty pieces. */
  function Split(s: string, sep: string): (r: seq<string>)
    requires sep != []
    ensures |r| >= 1
    decreases |s|
  {
    var i := Find(s, sep);
    if i < 0 then [s]
    else [s[..i]] + Split(s[i + |sep|..], sep)
  }

  /** Joining the pieces of a split with the separator gives back the
      string. */
  lemma {:induction false} SplitJoin(s: string, sep: string)
    requires sep != []
    ensures Join(sep, Split(s, sep)) == s
    decreases |s|
  {
    var i := Find(s, sep);
    if i >= 0 {
      var tail := s[i + |sep|..];
      SplitJoin(tail, sep);
      var r := Split(s, sep);
      assert r == [s[..i]] + Split(tail, sep);
      assert |r| >= 2 && r[0] == s[..i] && r[1..] == Split(tail, sep);
      assert Join(sep, r) == s[..i] + sep + tail;
      SliceThree(s, i, i + |sep|);
    }
  }

  lemma SliceThree(s: string, i: nat, j: nat)
    requires i <= j <= |s|
    ensures s == s[..i] + s[i..j] + s[j..]
  {
    var t := s[..i] + s[i..j] + s[j..];
    assert |t| == |s|;
    forall k | 0 <= k < |s| ensures t[k] == s[k] {
      if k < i {
      } else if k < j {
        assert t[k] == s[i..j][k - i];
      } else {
        assert t[k] == s[j..][k - j];
      }
    }
  }

  /** Where `Split` cuts: every piece but the last is a leftmost cut, and the
      last holds no separator. */
  lemma SplitCuts(s: string, sep: string)
    requires sep != []
    ensures !Contains(Split(s, sep)[|Split(s, sep)| - 1], sep)
    ensures forall k :: 0 <= k < |Split(s, sep)| - 1 ==> LeftmostCut(Split(s, sep)[k], sep)
  {
    SplitLastHasNoSep(s, sep);
    SplitPiecesAreCuts(s, sep);
  }

  lemma {:induction false} SplitLastHasNoSep(s: string, sep: string)
    requires sep != []
    ensures !Contains(Split(s, sep)[|Split(s, sep)| - 1], sep)
    decreases |s|
  {
    var i := Find(s, sep);
    if i >= 0 {
      var rest := Split(s[i + |sep|..], sep);
      var r := Split(s, sep);
      assert r[|r| - 1] == rest[|rest| - 1] by {
        assert r == [s[..i]] + rest;
      }
      SplitLastHasNoSep(s[i + |sep|..], sep);
    } else {
      FindLeftmost(s, sep);
      assert Split(s, sep) == [s];
    }
  }

  lemma {:induction false} SplitPiecesAreCuts(s: string, sep: string)
    requires sep != []
    ensures forall k :: 0 <= k < |Split(s, sep)| - 1 ==> LeftmostCut(Split(s, sep)[k], sep)
    decreases |s|
  {
    var i := Find(s, sep);
    FindLeftmost(s, sep);
    if i >= 0 {
      var rest := Split(s[i + |sep|..], sep);
      SplitPiecesAreCuts(s[i + |sep|..], sep);
      PrefixCutIsLeftmost(s, sep, i);
      var r := Split(s, sep);
      assert r == [s[..i]] + rest;
      forall k | 0 <= k < |r| - 1 ensures LeftmostCut(r[k], sep) {
        if k > 0 {
          assert r[k] == rest[k - 1];
        } else {
          assert r[k] == s[..i];
        }
      }
    } else {
      assert Split(s, sep) == [s];
    }
  }

  lemma PrefixCutIsLeftmost(s: string, sep: string, i: nat)
    requires OccursAt(s, sep, i)
    requires forall p: nat :: p < i ==> !OccursAt(s, sep, p)
    ensures LeftmostCut(s[..i], sep)
  {
    var t := s[..i] + sep;
    assert t == s[..i + |sep|];
    forall p: nat | p < i ensures !OccursAt(t, sep, p) {
      assert !OccursAt(s, sep, p);
      if p + |sep| <= |t| {
        assert t[p..p + |sep|] == s[p..p + |sep|];
      }
    }
  }

  /** The contract of `Split` pins its result down: any sequence of pieces
      that joins back to `s`, whose last piece holds no separator and whose
      other pieces are leftmost cuts, is `s.split(sep)`. */
  lemma {:induction false} SplitUnique(s: string, sep: string, r: seq<string>)
    requires sep != []
    requires |r| >= 1 && Join(sep, r) == s
    requires !Contains(r[|r| - 1], sep)
    requires forall k :: 0 <= k < |r| - 1 ==> LeftmostCut(r[k], sep)
    ensures Split(s, sep) == r
    decreases |r|
  {
    if |r| == 1 {
      FindLeftmost(s, sep);
      assert Find(s, sep) == -1;
    } else {
      var piece, rest := r[0], r[1..];
      var tail := Join(sep, rest);
      assert s == piece + sep + tail;
      FindAfterCut(piece, sep, tail);
      assert s[..|piece|] == piece && s[|piece| + |sep|..] == tail;
      forall k | 0 <= k < |rest| - 1 ensures LeftmostCut(rest[k], sep) {
        assert rest[k] == r[k + 1];
      }
      assert rest[|rest| - 1] == r[|r| - 1];
      SplitUnique(tail, sep, rest);
      assert r == [piece] + rest;
    }
  }

  /** A leftmost scan of `piece + sep + tail` stops right after `piece`. */
  lemma FindAfterCut(piece: string, sep: string, tail: string)
    requires sep != [] && LeftmostCut(piece, sep)
    ensures Find(piece + sep + tail, sep) == |piece|
  {
    var s := piece + sep + tail;
    var t := piece + sep;
    FindLeftmost(s, sep);
    assert OccursAt(s, sep, |piece|) by {
      assert s[|piece|..|piece| + |sep|] == sep;
    }
    forall p: nat | p < |piece| ensures !OccursAt(s, sep, p) {
      assert !OccursAt(t, sep, p);
      if p + |sep| <= |s| {
        assert s[p..p + |sep|] == t[p..p + |sep|];
      }
    }
  }

  /** `sep.join(parts).split(sep) == parts` when the parts are cut the way a
      leftmost scan would cut them. */
  lemma JoinSplitRoundTrip(sep: string, parts: seq<string>)
    requires sep != [] && |parts| >= 1
    requires !Contains(parts[|parts| - 1], sep)
    requires forall k :: 0 <= k < |parts| - 1 ==> LeftmostCut(parts[k], sep)
    ensures Split(Join(sep, parts), sep) == parts
  {
    SplitUnique(Join(sep, parts), sep, parts);
  }

  /** A part free of the one-character separator `c` is cut the way a
      leftmost scan cuts it, and holds no separator. */
  lemma NoCharIsLeftmostCut(piece: string, c: char)
    requires c !in piece
    ensures LeftmostCut(piece, [c]) && !Contains(piece, [c])
  {
    forall p: nat | p < |piece| ensures !OccursAt(piece + [c], [c], p) {
      assert (piece + [c])[p..p + 1] == [piece[p]];
    }
    forall p: nat | p <= |piece| ensures !OccursAt(piece, [c], p) {
      if p < |piece| {
        assert piece[p..p + 1] == [piece[p]];
      }
    }
  }

  /** Parts without the one-character separator come back out of their
      join: `sep.join(parts).split(sep) == parts`. */
  lemma JoinSplitOnChar(c: char, parts: seq<string>)
    requires |parts| >= 1
    requires forall k | 0 <= k < |parts| :: c !in parts[k]
    ensures Split(Join([c], parts), [c]) == parts
  {
    forall k | 0 <= k < |parts| - 1 ensures LeftmostCut(parts[k], [c]) {
      NoCharIsLeftmostCut(parts[k], c);
    }
    NoCharIsLeftmostCut(parts[|parts| - 1], c);
    JoinSplitRoundTrip([c], parts);
  }

  /** A join starts with its first part. */
  lemma JoinStartsWithFirst(sep: string, parts: seq<string>)
    requires |parts| >= 1
    ensures parts[0] <= Join(sep, parts)
  {
    if |parts| >= 2 {
      assert Join(sep, parts) == parts[0] + (sep + Join(sep, parts[1..]));
    }
  }

  /** Every part of a join occurs in the joined string. */
  lemma {:induction false} JoinContainsPart(sep: string, parts: seq<string>, k: nat)
    requires k < |parts|
    ensures Contains(Join(sep, parts), parts[k])
    decreases |parts|
  {
    var j := Join(sep, parts);
    if |parts| == 1 {
      assert OccursAt(j, parts[k], 0);
    } else if k == 0 {
      assert j[..|parts[0]|] == parts[0];
      assert OccursAt(j, parts[0], 0);
    } else {
      JoinContainsPart(sep, parts[1..], k - 1);
      assert parts[1..][k - 1] == parts[k];
      var tail := Join(sep, parts[1..]);
      var p: nat :| p <= |tail| && OccursAt(tail, parts[k], p);
      assert p + |parts[k]| <= |tail|;
      var off := |parts[0]| + |sep|;
      assert j == parts[0] + sep + tail;
      assert j[off + p..off + p + |parts[k]|] == tail[p..p + |parts[k]|];
      assert OccursAt(j, parts[k], off + p);
    }
  }

  /** A character of a joined string comes from a part or from a separator. */
  lemma {:induction false} JoinCharOrigin(sep: string, parts: seq<string>, i: nat)
    requires i < |Join(sep, parts)|
    ensures (exists k, j :: 0 <= k < |parts| && 0 <= j < |parts[k]| && parts[k][j] == Join(sep, parts)[i])
         || (exists j :: 0 <= j < |sep| && sep[j] == Join(sep, parts)[i])
    decreases |parts|
  {
    var s := Join(sep, parts);
    if |parts| == 1 {
      assert parts[0][i] == s[i];
    } else {
      assert s == parts[0] + sep + Join(sep, parts[1..]);
      if i < |parts[0]| {
        assert parts[0][i] == s[i];
      } else if i < |parts[0]| + |sep| {
        assert sep[i - |parts[0]|] == s[i];
      } else {
        var i' := i - |parts[0]| - |sep|;
        JoinCharOrigin(sep, parts[1..], i');
        if exists j :: 0 <= j < |sep| && sep[j] == Join(sep, parts[1..])[i'] {
        } else {
          var k, j :| 0 <= k < |parts[1..]| && 0 <= j < |parts[1..][k]| && parts[1..][k][j] == Join(sep, parts[1..])[i'];
          assert parts[k + 1][j] == s[i];
        }
      }
    }
  }

  /** Every character of a part is a character of the joined string. */
  lemma {:induction false} PartCharInJoin(sep: string, parts: seq<string>, k: nat, j: nat)
    requires k < |parts| && j < |parts[k]|
    ensures exists i :: 0 <= i < |Join(sep, parts)| && Join(sep, parts)[i] == parts[k][j]
    decreases |parts|
  {
    var s := Join(sep, parts);
    if |parts| == 1 {
      assert s[j] == parts[k][j];
    } else {
      assert s == parts[0] + sep + Join(sep, parts[1..]);
      if k == 0 {
        assert s[j] == parts[0][j];
      } else {
        PartCharInJoin(sep, parts[1..], k - 1, j);
        var i :| 0 <= i < |Join(sep, parts[1..])| && Join(sep, parts[1..])[i] == parts[k][j];
        assert s[|parts[0]| + |sep| + i] == parts[k][j];
      }
    }
  }

  // ---------------------------------------------------------------------
  // strip
  // ---------------------------------------------------------------------

  /** `c.isspace()` in CPython: the characters `str.strip()` removes. */
  predicate IsSpace(c: char) {
    var n := c as int;
    (0x09 <= n <= 0x0D) || (0x1C <= n <= 0x20) || n == 0x85 || n == 0xA0 || n == 0x1680
    || (0x2000 <= n <= 0x200A) || n == 0x2028 || n == 0x2029 || n == 0x202F
    || n == 0x205F || n == 0x3000
  }

  /** Empty or whitespace-only: `not s.strip()`. */
  predicate IsBlank(s: string) {
    forall i | 0 <= i < |s| :: IsSpace(s[i])
  }

  function TrimStart(s: string): (r: string)
    ensures |r| <= |s| && r == s[|s| - |r|..]
    ensures r == [] || !IsSpace(r[0])
    decreases |s|
  {
    if s != [] && IsSpace(s[0]) then TrimStart(s[1..]) else s
  }

  lemma {:induction false} TrimStartEmptyIffBlank(s: string)
    ensures TrimStart(s) == [] <==> IsBlank(s)
    decreases |s|
  {
    if s != [] {
      assert s == [s[0]] + s[1..];
      BlankConcat([s[0]], s[1..]);
      if IsSpace(s[0]) {
        TrimStartEmptyIffBlank(s[1..]);
      }
    }
  }

  /** What `TrimStart` removes is whitespace only. */
  lemma {:induction false} TrimStartRemovesBlank(s: string)
    ensures IsBlank(s[..|s| - |TrimStart(s)|])
    decreases |s|
  {
    if s != [] && IsSpace(s[0]) {
      TrimStartRemovesBlank(s[1..]);
      var n := |s[1..]| - |TrimStart(s[1..])|;
      assert s[..n + 1] == [s[0]] + s[1..][..n];
    }
  }

  function TrimEnd(s: string): (r: string)
    ensures |r| <= |s| && r == s[..|r|]
    ensures r == [] || !IsSpace(r[|r| - 1])
    decreases |s|
  {
    if s != [] && IsSpace(s[|s| - 1]) then TrimEnd(s[..|s| - 1]) else s
  }

  lemma {:induction false} TrimEndEmptyIffBlank(s: string)
    ensures TrimEnd(s) == [] <==> IsBlank(s)
    decreases |s|
  {
    if s != [] {
      var n := |s| - 1;
      assert s == s[..n] + [s[n]];
      BlankConcat(s[..n], [s[n]]);
      if IsSpace(s[n]) {
        TrimEndEmptyIffBlank(s[..n]);
      }
    }
  }

  /** What `TrimEnd` removes is whitespace only. */
  lemma {:induction false} TrimEndRemovesBlank(s: string)
    ensures IsBlank(s[|TrimEnd(s)|..])
    decreases |s|
  {
    if s != [] && IsSpace(s[|s| - 1]) {
      var t := s[..|s| - 1];
      TrimEndRemovesBlank(t);
      assert s[|TrimEnd(t)|..] == t[|TrimEnd(t)|..] + [s[|s| - 1]];
    }
  }

  /** `s.strip()`: the slice of `s` left after removing leading and trailing
      whitespace. */
  function Strip(s: string): string {
    TrimEnd(TrimStart(s))
  }

  /** `s.strip()` is empty exactly when `s` is all whitespace. */
  lemma StripBlank(s: string)
    ensures Strip(s) == [] <==> IsBlank(s)
  {
    var t := TrimStart(s);
    TrimStartEmptyIffBlank(s);
    TrimEndEmptyIffBlank(t);
    if t != [] {
      assert !IsSpace(t[0]);
    }
  }

  /** What `s.strip()` returns neither starts nor ends with whitespace. */
  lemma StripEnds(s: string)
    ensures Strip(s) != [] ==> !IsSpace(Strip(s)[0]) && !IsSpace(Strip(s)[|Strip(s)| - 1])
  {
    var t := TrimStart(s);
    var r := TrimEnd(t);
    if r != [] {
      assert r[0] == t[0];
    }
  }

  /** `s.strip()` is the slice `s[i..j]` left after removing whitespace
      only, at the front (`s[..i]`) and at the back (`s[j..]`); with
      `StripEnds`, exactly the leading and trailing whitespace runs are
      removed. */
  lemma StripRemovesOnlyEndSpace(s: string)
    ensures |s| - |TrimStart(s)| + |Strip(s)| <= |s|
    ensures Strip(s) == s[|s| - |TrimStart(s)|..|s| - |TrimStart(s)| + |Strip(s)|]
    ensures IsBlank(s[..|s| - |TrimStart(s)|])
    ensures IsBlank(s[|s| - |TrimStart(s)| + |Strip(s)|..])
  {
    TrimStartRemovesBlank(s);
    StripIsSlice(s);
    StripTailBlank(s);
  }

  /** `s.strip()` is the slice of `s` that starts where `lstrip` stops. */
  lemma StripIsSlice(s: string)
    ensures |s| - |TrimStart(s)| + |Strip(s)| <= |s|
    ensures Strip(s) == s[|s| - |TrimStart(s)|..|s| - |TrimStart(s)| + |Strip(s)|]
  {
    var t := TrimStart(s);
    var r := TrimEnd(t);
    TrimEndRemovesBlank(t);
    StripShape(s, t, r);
  }

  /** What follows `s.strip()` in `s` is whitespace only. */
  lemma StripTailBlank(s: string)
    ensures |s| - |TrimStart(s)| + |Strip(s)| <= |s|
    ensures IsBlank(s[|s| - |TrimStart(s)| + |Strip(s)|..])
  {
    var t := TrimStart(s);
    var r := TrimEnd(t);
    TrimEndRemovesBlank(t);
    StripShape(s, t, r);
  }

  /** A prefix `r` of a suffix `t` of `s` is a slice of `s`, followed in
      `s` by the rest of `t`. */
  lemma StripShape(s: string, t: string, r: string)
    requires |t| <= |s| && t == s[|s| - |t|..]
    requires |r| <= |t| && r == t[..|r|]
    requires IsBlank(t[|r|..])
    ensures r == s[|s| - |t|..|s| - |t| + |r|]
    ensures IsBlank(s[|s| - |t| + |r|..])
  {
    assert s[|s| - |t| + |r|..] == t[|r|..];
  }

  /** What `strip` returns is a substring of its argument. */
  lemma StripIsInfix(s: string)
    ensures Contains(s, Strip(s))
  {
    var t := TrimStart(s);
    var r := TrimEnd(t);
    assert OccursAt(s, r, |s| - |t|) by {
      assert s[|s| - |t|..|s| - |t| + |r|] == t[..|r|];
    }
  }

  /** Substring containment is transitive. */
  lemma ContainsTrans(a: string, b: string, c: string)
    requires Contains(a, b) && Contains(b, c)
    ensures Contains(a, c)
  {
    var p: nat :| p <= |a| && OccursAt(a, b, p);
    var q: nat :| q <= |b| && OccursAt(b, c, q);
    forall i | 0 <= i < |c| ensures a[p + q + i] == c[i] {
      assert c[i] == b[q + i] == a[p..p + |b|][q + i];
    }
    assert a[p + q..p + q + |c|] == c;
    assert OccursAt(a, c, p + q) && p + q <= |a|;
  }

  /** A piece cut off by a leftmost scan holds no separator. */
  lemma LeftmostCutHasNoSep(piece: string, sep: string)
    requires sep != [] && LeftmostCut(piece, sep)
    ensures !Contains(piece, sep)
  {
    forall p: nat | p <= |piece| ensures !OccursAt(piece, sep, p) {
      if p + |sep| <= |piece| {
        assert !OccursAt(piece + sep, sep, p);
        assert (piece + sep)[p..p + |sep|] == piece[p..p + |sep|];
      }
    }
  }

  lemma BlankConcat(a: string, b: string)
    ensures IsBlank(a + b) <==> IsBlank(a) && IsBlank(b)
  {
    if IsBlank(a + b) {
      assert forall i | 0 <= i < |a| :: a[i] == (a + b)[i];
      assert forall i | 0 <= i < |b| :: b[i] == (a + b)[|a| + i];
    }
    if IsBlank(a) && IsBlank(b) {
      forall i | 0 <= i < |a + b| ensures IsSpace((a + b)[i]) {
        if i >= |a| { assert (a + b)[i] == b[i - |a|]; }
      }
    }
  }

  /** With a whitespace separator, a join is blank exactly when every part
      is. */
  lemma {:induction false} JoinBlank(sep: string, parts: seq<string>)
    requires IsBlank(sep)
    ensures IsBlank(Join(sep, parts)) <==> forall k | 0 <= k < |parts| :: IsBlank(parts[k])
    decreases |parts|
  {
    if |parts| >= 2 {
      JoinBlank(sep, parts[1..]);
      BlankConcat(parts[0], sep);
      BlankConcat(parts[0] + sep, Join(sep, parts[1..]));
      assert forall k | 1 <= k < |parts| :: parts[k] == parts[1..][k - 1];
    }
  }

  // ---------------------------------------------------------------------
  // ASCII case mapping
  // ---------------------------------------------------------------------

  predicate IsAsciiUpper(c: char) { 'A' <= c <= 'Z' }
  predicate IsAsciiLower(c: char) { 'a' <= c <= 'z' }
  predicate IsAsciiLetter(c: char) { IsAsciiUpper(c) || IsAsciiLower(c) }

  function LowerChar(c: char): char {
    if IsAsciiUpper(c) then (c as int + 32) as char else c
  }

  function UpperChar(c: char): char {
    if IsAsciiLower(c) then (c as int - 32) as char else c
  }

  /** `s.lower()` restricted to the ASCII case map. */
  function Lower(s: string): (r: string)
    ensures |r| == |s|
    ensures forall i | 0 <= i < |s| :: r[i] == LowerChar(s[i])
  {
    seq(|s|, i requires 0 <= i < |s| => LowerChar(s[i]))
  }

  /** `s.title()` restricted to ASCII letters: a letter that starts a run of
      letters is upper-cased, every other letter lower-cased. */
  function Title(s: string): (r: string)
    ensures |r| == |s|
    ensures forall i | 0 <= i < |s| && !IsAsciiLetter(s[i]) :: r[i] == s[i]
  {
    seq(|s|, i requires 0 <= i < |s| =>
      if !IsAsciiLetter(s[i]) then s[i]
      else if i == 0 || !IsAsciiLetter(s[i - 1]) then UpperChar(s[i])
      else LowerChar(s[i]))
  }

  // ---------------------------------------------------------------------
  // str(n) for a natural number
  // ---------------------------------------------------------------------

  predicate IsDigit(c: char) { '0' as int <= c as int <= '9' as int }

  function DigitChar(d: nat): (c: char)
    requires d < 10
    ensures IsDigit(c) && c as int - '0' as int == d
  {
    ('0' as int + d) as char
  }

  /** `str(n)`: decimal digits, most significant first, no leading zero. */
  function NatToString(n: nat): (r: string)
    ensures 1 <= |r|
    ensures forall i | 0 <= i < |r| :: IsDigit(r[i])
    ensures |r| > 1 ==> r[0] != '0'
    ensures n >= 10 ==> |r| >= 2
  {
    if n < 10 then [DigitChar(n)] else NatToString(n / 10) + [DigitChar(n % 10)]
  }

  /** The value of a string of decimal digits (the inverse of `NatToString`). */
  function DigitsValue(s: string): nat
    requires forall i | 0 <= i < |s| :: IsDigit(s[i])
  {
    if s == [] then 0
    else
      assert IsDigit(s[|s| - 1]);
      DigitsValue(s[..|s| - 1]) * 10 + (s[|s| - 1] as int - '0' as int)
  }

  lemma {:induction false} DecimalRoundTrip(n: nat)
    ensures DigitsValue(NatToString(n)) == n
  {
    if n >= 10 {
      var s := NatToString(n);
      assert s[..|s| - 1] == NatToString(n / 10);
      DecimalRoundTrip(n / 10);
    }
  }

  /** Distinct numbers print differently. */
  lemma NatToStringInjective(a: nat, b: nat)
    ensures NatToString(a) == NatToString(b) ==> a == b
  {
    DecimalRoundTrip(a);
    DecimalRoundTrip(b);
  }
}
