/** Edit distance between command names, and the pruned search for the nearest one. */
module EditDistance {
  import opened Prelude

  type Text = seq<byte>

  // ----- the distance: the price of the cheapest edit script

  datatype Edit = Keep | Substitute | Insert | Delete | Swap

  function Price(script: seq<Edit>): nat
  {
    if script == [] then 0
    else Price(script[..|script| - 1]) + if script[|script| - 1] == Keep then 0 else 1
  }

  predicate Crossed(a: Text, b: Text, i: nat, j: nat)
    requires i <= |a| && j <= |b|
  {
    1 < i && 1 < j && a[i - 1] == b[j - 2] && a[i - 2] == b[j - 1]
  }

  /** The script turns the first `i` bytes of `a` into the first `j` of `b`, no byte being edited twice. */
  ghost predicate Transforms(script: seq<Edit>, a: Text, b: Text, i: nat, j: nat)
    requires i <= |a| && j <= |b|
    decreases |script|
  {
    if script == [] then i == 0 && j == 0
    else
      var rest := script[..|script| - 1];
      match script[|script| - 1]
      case Keep => 0 < i && 0 < j && a[i - 1] == b[j - 1] && Transforms(rest, a, b, i - 1, j - 1)
      case Substitute => 0 < i && 0 < j && Transforms(rest, a, b, i - 1, j - 1)
      case Insert => 0 < j && Transforms(rest, a, b, i, j - 1)
      case Delete => 0 < i && Transforms(rest, a, b, i - 1, j)
      case Swap => Crossed(a, b, i, j) && Transforms(rest, a, b, i - 2, j - 2)
  }

  ghost predicate Attains(a: Text, b: Text, i: nat, j: nat, n: nat)
    requires i <= |a| && j <= |b|
  {
    exists script :: Transforms(script, a, b, i, j) && Price(script) == n
  }

  ghost predicate Bounds(a: Text, b: Text, i: nat, j: nat, n: nat)
    requires i <= |a| && j <= |b|
  {
    forall script | Transforms(script, a, b, i, j) :: n <= Price(script)
  }

  ghost predicate IsBest(a: Text, b: Text, i: nat, j: nat, n: nat)
    requires i <= |a| && j <= |b|
  {
    Attains(a, b, i, j, n) && Bounds(a, b, i, j, n)
  }

  /** Distance between the first `i` bytes of `a` and the first `j` of `b`. */
  ghost function Best(a: Text, b: Text, i: nat, j: nat): (n: nat)
    requires i <= |a| && j <= |b|
    ensures IsBest(a, b, i, j, n)
  {
    BestExists(a, b, i, j);
    var n :| IsBest(a, b, i, j, n);
    n
  }

  ghost function Distance(a: Text, b: Text): nat { Best(a, b, |a|, |b|) }

  // ----- the recurrence the table is filled by

  function Cost(a: byte, b: byte): nat { if a == b then 0 else 1 }

  /** One table entry from its three neighbours and the entry two back on the diagonal. */
  function Cell(a: Text, b: Text, i: nat, j: nat, up: nat, left: nat, diagonal: nat, cross: nat): nat
    requires 0 < i <= |a| && 0 < j <= |b|
  {
    var best := Min(Min(up + 1, left + 1), diagonal + Cost(a[i - 1], b[j - 1]));
    if Crossed(a, b, i, j) then Min(best, cross + 1) else best
  }

  lemma Extend(a: Text, b: Text, i: nat, j: nat, i0: nat, j0: nat, n: nat, edit: Edit)
    requires i <= |a| && j <= |b| && i0 <= i && j0 <= j && Attains(a, b, i0, j0, n)
    requires match edit
             case Keep => i0 + 1 == i && j0 + 1 == j && a[i - 1] == b[j - 1]
             case Substitute => i0 + 1 == i && j0 + 1 == j
             case Insert => i0 == i && j0 + 1 == j
             case Delete => i0 + 1 == i && j0 == j
             case Swap => i0 + 2 == i && j0 + 2 == j && Crossed(a, b, i, j)
    ensures Attains(a, b, i, j, n + if edit == Keep then 0 else 1)
  {
    var rest :| Transforms(rest, a, b, i0, j0) && Price(rest) == n;
    var script := rest + [edit];
    assert script[..|script| - 1] == rest;
    assert Transforms(script, a, b, i, j);
  }

  lemma CellAttains(a: Text, b: Text, i: nat, j: nat, up: nat, left: nat, diagonal: nat, cross: nat)
    requires 0 < i <= |a| && 0 < j <= |b|
    requires Attains(a, b, i - 1, j, up) && Attains(a, b, i, j - 1, left) && Attains(a, b, i - 1, j - 1, diagonal)
    requires Crossed(a, b, i, j) ==> Attains(a, b, i - 2, j - 2, cross)
    ensures Attains(a, b, i, j, Cell(a, b, i, j, up, left, diagonal, cross))
  {
    Extend(a, b, i, j, i - 1, j, up, Delete);
    Extend(a, b, i, j, i, j - 1, left, Insert);
    Extend(a, b, i, j, i - 1, j - 1, diagonal, if a[i - 1] == b[j - 1] then Keep else Substitute);
    if Crossed(a, b, i, j) {
      Extend(a, b, i, j, i - 2, j - 2, cross, Swap);
    }
  }

  lemma CellBounds(a: Text, b: Text, i: nat, j: nat, up: nat, left: nat, diagonal: nat, cross: nat)
    requires 0 < i <= |a| && 0 < j <= |b|
    requires Bounds(a, b, i - 1, j, up) && Bounds(a, b, i, j - 1, left) && Bounds(a, b, i - 1, j - 1, diagonal)
    requires Crossed(a, b, i, j) ==> Bounds(a, b, i - 2, j - 2, cross)
    ensures Bounds(a, b, i, j, Cell(a, b, i, j, up, left, diagonal, cross))
  {
    forall script | Transforms(script, a, b, i, j)
      ensures Cell(a, b, i, j, up, left, diagonal, cross) <= Price(script)
    {
      var rest := script[..|script| - 1];
      match script[|script| - 1]
      case Keep => assert diagonal <= Price(rest);
      case Substitute => assert diagonal <= Price(rest);
      case Insert => assert left <= Price(rest);
      case Delete => assert up <= Price(rest);
      case Swap => assert cross <= Price(rest);
    }
  }

  /** Every script pays at least the difference in length. */
  lemma {:induction false} ScriptPaysDifference(script: seq<Edit>, a: Text, b: Text, i: nat, j: nat)
    requires i <= |a| && j <= |b| && Transforms(script, a, b, i, j)
    ensures Max(i - j, j - i) <= Price(script)
    decreases |script|
  {
    if script != [] {
      var rest := script[..|script| - 1];
      match script[|script| - 1]
      case Keep => ScriptPaysDifference(rest, a, b, i - 1, j - 1);
      case Substitute => ScriptPaysDifference(rest, a, b, i - 1, j - 1);
      case Insert => ScriptPaysDifference(rest, a, b, i, j - 1);
      case Delete => ScriptPaysDifference(rest, a, b, i - 1, j);
      case Swap => ScriptPaysDifference(rest, a, b, i - 2, j - 2);
    }
  }

  /** Substituting the common part and inserting or deleting the rest is one way to do it. */
  lemma {:induction false} LongerLengthAttained(a: Text, b: Text, i: nat, j: nat) returns (n: nat)
    requires i <= |a| && j <= |b|
    ensures Attains(a, b, i, j, n) && n <= Max(i, j)
    decreases i + j
  {
    if i == 0 && j == 0 {
      n := 0;
      var none: seq<Edit> := [];
      assert Transforms(none, a, b, 0, 0);
    } else if i < j {
      var m := LongerLengthAttained(a, b, i, j - 1);
      Extend(a, b, i, j, i, j - 1, m, Insert);
      n := m + 1;
    } else if j < i {
      var m := LongerLengthAttained(a, b, i - 1, j);
      Extend(a, b, i, j, i - 1, j, m, Delete);
      n := m + 1;
    } else {
      var m := LongerLengthAttained(a, b, i - 1, j - 1);
      Extend(a, b, i, j, i - 1, j - 1, m, Substitute);
      n := m + 1;
    }
  }

  /** On the border of the table only insertions, or only deletions, are left. */
  lemma BorderIsBest(a: Text, b: Text, i: nat, j: nat)
    requires i <= |a| && j <= |b| && (i == 0 || j == 0)
    ensures IsBest(a, b, i, j, i + j)
  {
    var n := LongerLengthAttained(a, b, i, j);
    forall script | Transforms(script, a, b, i, j)
      ensures i + j <= Price(script)
    {
      ScriptPaysDifference(script, a, b, i, j);
    }
  }

  lemma {:induction false} BestExists(a: Text, b: Text, i: nat, j: nat)
    requires i <= |a| && j <= |b|
    ensures exists n: nat :: IsBest(a, b, i, j, n)
    decreases i + j
  {
    if i == 0 || j == 0 {
      BorderIsBest(a, b, i, j);
    } else {
      BestExists(a, b, i - 1, j);
      var up: nat :| IsBest(a, b, i - 1, j, up);
      BestExists(a, b, i, j - 1);
      var left: nat :| IsBest(a, b, i, j - 1, left);
      BestExists(a, b, i - 1, j - 1);
      var diagonal: nat :| IsBest(a, b, i - 1, j - 1, diagonal);
      var cross: nat := 0;
      if Crossed(a, b, i, j) {
        BestExists(a, b, i - 2, j - 2);
        cross :| IsBest(a, b, i - 2, j - 2, cross);
      }
      CellAttains(a, b, i, j, up, left, diagonal, cross);
      CellBounds(a, b, i, j, up, left, diagonal, cross);
      assert IsBest(a, b, i, j, Cell(a, b, i, j, up, left, diagonal, cross));
    }
  }

  lemma BestIsUnique(a: Text, b: Text, i: nat, j: nat, n: nat)
    requires i <= |a| && j <= |b| && IsBest(a, b, i, j, n)
    ensures Best(a, b, i, j) == n
  {
    var m := Best(a, b, i, j);
    var s :| Transforms(s, a, b, i, j) && Price(s) == n;
    var t :| Transforms(t, a, b, i, j) && Price(t) == m;
    assert m <= Price(s) && n <= Price(t);
  }

  lemma Border(a: Text, b: Text, i: nat, j: nat)
    requires i <= |a| && j <= |b| && (i == 0 || j == 0)
    ensures Best(a, b, i, j) == i + j
  {
    BorderIsBest(a, b, i, j);
    BestIsUnique(a, b, i, j, i + j);
  }

  /** The optimal-string-alignment recurrence: insert, delete, substitute or keep, or swap two neighbours. */
  lemma Recurrence(a: Text, b: Text, i: nat, j: nat)
    requires 0 < i <= |a| && 0 < j <= |b|
    ensures Best(a, b, i, j)
            == Cell(a, b, i, j, Best(a, b, i - 1, j), Best(a, b, i, j - 1), Best(a, b, i - 1, j - 1),
                    if Crossed(a, b, i, j) then Best(a, b, i - 2, j - 2) else 0)
  {
    var up, left, diagonal := Best(a, b, i - 1, j), Best(a, b, i, j - 1), Best(a, b, i - 1, j - 1);
    var cross := if Crossed(a, b, i, j) then Best(a, b, i - 2, j - 2) else 0;
    CellAttains(a, b, i, j, up, left, diagonal, cross);
    CellBounds(a, b, i, j, up, left, diagonal, cross);
    BestIsUnique(a, b, i, j, Cell(a, b, i, j, up, left, diagonal, cross));
  }

  // ----- laws

  /** The same edits read in the other direction. */
  function Mirrored(script: seq<Edit>): seq<Edit>
  {
    if script == [] then []
    else
      var last := script[|script| - 1];
      Mirrored(script[..|script| - 1]) + [if last == Insert then Delete else if last == Delete then Insert else last]
  }

  lemma {:induction false} MirroredPrice(script: seq<Edit>)
    ensures Price(Mirrored(script)) == Price(script)
  {
    if script != [] {
      var mirror := Mirrored(script);
      assert mirror[..|mirror| - 1] == Mirrored(script[..|script| - 1]);
      MirroredPrice(script[..|script| - 1]);
    }
  }

  lemma {:induction false} MirroredTransforms(script: seq<Edit>, a: Text, b: Text, i: nat, j: nat)
    requires i <= |a| && j <= |b| && Transforms(script, a, b, i, j)
    ensures Transforms(Mirrored(script), b, a, j, i)
    decreases |script|
  {
    if script != [] {
      var rest := script[..|script| - 1];
      var mirror := Mirrored(script);
      assert mirror[..|mirror| - 1] == Mirrored(rest);
      match script[|script| - 1]
      case Keep => MirroredTransforms(rest, a, b, i - 1, j - 1);
      case Substitute => MirroredTransforms(rest, a, b, i - 1, j - 1);
      case Insert => MirroredTransforms(rest, a, b, i, j - 1);
      case Delete => MirroredTransforms(rest, a, b, i - 1, j);
      case Swap => MirroredTransforms(rest, a, b, i - 2, j - 2);
    }
  }

  lemma NoDearerBackwards(a: Text, b: Text)
    ensures Distance(b, a) <= Distance(a, b)
  {
    var d := Distance(a, b);
    assert Attains(a, b, |a|, |b|, d);
    var script :| Transforms(script, a, b, |a|, |b|) && Price(script) == d;
    MirroredTransforms(script, a, b, |a|, |b|);
    MirroredPrice(script);
    assert IsBest(b, a, |b|, |a|, Distance(b, a));
  }

  /** A free script keeps every byte. */
  lemma {:induction false} FreeScriptKeepsAll(script: seq<Edit>, a: Text, b: Text, i: nat, j: nat)
    requires i <= |a| && j <= |b| && Transforms(script, a, b, i, j) && Price(script) == 0
    ensures a[..i] == b[..j]
    decreases |script|
  {
    if script != [] {
      FreeScriptKeepsAll(script[..|script| - 1], a, b, i - 1, j - 1);
      assert a[..i] == a[..i - 1] + [a[i - 1]];
      assert b[..j] == b[..j - 1] + [b[j - 1]];
    }
  }

  lemma {:induction false} EqualTextsAreFree(a: Text, i: nat)
    requires i <= |a|
    ensures Attains(a, a, i, i, 0)
  {
    if i == 0 {
      var none: seq<Edit> := [];
      assert Transforms(none, a, a, 0, 0);
    } else {
      EqualTextsAreFree(a, i - 1);
      Extend(a, a, i, i, i - 1, i - 1, 0, Keep);
    }
  }

  /** Symmetric, zero only on equal texts, at least the length difference and at most the longer length. */
  lemma DistanceLaws(a: Text, b: Text)
    ensures Distance(a, b) == Distance(b, a)
    ensures Distance(a, b) == 0 <==> a == b
    ensures Max(|a| - |b|, |b| - |a|) <= Distance(a, b) <= Max(|a|, |b|)
  {
    NoDearerBackwards(a, b);
    NoDearerBackwards(b, a);
    var d := Distance(a, b);
    var script :| Transforms(script, a, b, |a|, |b|) && Price(script) == d;
    ScriptPaysDifference(script, a, b, |a|, |b|);
    var n := LongerLengthAttained(a, b, |a|, |b|);
    assert Bounds(a, b, |a|, |b|, d);
    assert a[..|a|] == a && b[..|b|] == b;
    if d == 0 {
      FreeScriptKeepsAll(script, a, b, |a|, |b|);
    }
    if a == b {
      EqualTextsAreFree(a, |a|);
    }
  }

  /** It is not a metric: going through a third text can be cheaper, because no byte is edited twice. */
  lemma TriangleInequalityFails()
    ensures var ca: Text, ac: Text, abc: Text := [2, 0], [0, 2], [0, 1, 2];
            Distance(ca, abc) > Distance(ca, ac) + Distance(ac, abc)
  {
    UnevenTextIsShortcut([0, 2], 0, 1);
    assert SwappedAt([0, 2], 0) == [2, 0] && SplitAt([0, 2], 0, 1) == [0, 1, 2];
  }

  // ----- when the triangle inequality holds

  /** Two different neighbours of `a` stand the other way round in `b`. */
  predicate ProperlyCrossed(a: Text, b: Text, i: nat, j: nat)
    requires i <= |a| && j <= |b|
  {
    Crossed(a, b, i, j) && a[i - 1] != a[i - 2]
  }

  predicate NowhereCrossed(a: Text, b: Text)
  {
    forall i, j | 0 <= i <= |a| && 0 <= j <= |b| :: !ProperlyCrossed(a, b, i, j)
  }

  lemma StepBounds(a: Text, b: Text, i: nat, j: nat)
    requires i <= |a| && j <= |b|
    ensures 0 < i ==> Best(a, b, i, j) <= Best(a, b, i - 1, j) + 1
    ensures 0 < j ==> Best(a, b, i, j) <= Best(a, b, i, j - 1) + 1
    ensures 0 < i && 0 < j ==> Best(a, b, i, j) <= Best(a, b, i - 1, j - 1) + Cost(a[i - 1], b[j - 1])
  {
    if i == 0 || j == 0 {
      Border(a, b, i, j);
      if 0 < i { Border(a, b, i - 1, j); }
      if 0 < j { Border(a, b, i, j - 1); }
    } else {
      Recurrence(a, b, i, j);
    }
  }

  /** Swapping equal neighbours never pays, so without a proper crossing three choices are left. */
  lemma PlainRecurrence(a: Text, b: Text, i: nat, j: nat)
    requires 0 < i <= |a| && 0 < j <= |b| && !ProperlyCrossed(a, b, i, j)
    ensures || Best(a, b, i, j) == Best(a, b, i - 1, j) + 1
            || Best(a, b, i, j) == Best(a, b, i, j - 1) + 1
            || Best(a, b, i, j) == Best(a, b, i - 1, j - 1) + Cost(a[i - 1], b[j - 1])
  {
    Recurrence(a, b, i, j);
    if Crossed(a, b, i, j) {
      StepBounds(a, b, i - 1, j - 1);
    }
  }

  lemma PrefixBounds(a: Text, b: Text, i: nat, j: nat)
    requires i <= |a| && j <= |b|
    ensures Max(i - j, j - i) <= Best(a, b, i, j) <= Max(i, j)
  {
    var n := LongerLengthAttained(a, b, i, j);
    var script :| Transforms(script, a, b, i, j) && Price(script) == Best(a, b, i, j);
    ScriptPaysDifference(script, a, b, i, j);
  }

  lemma {:induction false} PrefixTriangle(a: Text, b: Text, c: Text, i: nat, j: nat, k: nat)
    requires i <= |a| && j <= |b| && k <= |c| && NowhereCrossed(a, b) && NowhereCrossed(b, c)
    ensures Best(a, c, i, k) <= Best(a, b, i, j) + Best(b, c, j, k)
    decreases i + j + k
  {
    if i == 0 || j == 0 || k == 0 {
      PrefixBounds(a, b, i, j);
      PrefixBounds(b, c, j, k);
      PrefixBounds(a, c, i, k);
    } else {
      PlainRecurrence(a, b, i, j);
      PlainRecurrence(b, c, j, k);
      StepBounds(a, c, i, k);
      if Best(a, b, i, j) == Best(a, b, i - 1, j) + 1 {
        PrefixTriangle(a, b, c, i - 1, j, k);
      } else if Best(b, c, j, k) == Best(b, c, j, k - 1) + 1 {
        PrefixTriangle(a, b, c, i, j, k - 1);
      } else {
        var i' := if Best(a, b, i, j) == Best(a, b, i, j - 1) + 1 then i else i - 1;
        var k' := if Best(b, c, j, k) == Best(b, c, j - 1, k) + 1 then k else k - 1;
        PrefixTriangle(a, b, c, i', j - 1, k');
      }
    }
  }

  /** A detour never pays when it undoes no swap: no two different neighbours change places on either leg. */
  lemma TriangleUnlessCrossed(a: Text, b: Text, c: Text)
    requires NowhereCrossed(a, b) && NowhereCrossed(b, c)
    ensures Distance(a, c) <= Distance(a, b) + Distance(b, c)
  {
    PrefixTriangle(a, b, c, |a|, |b|, |c|);
  }

  /** All bytes are the same. */
  predicate Uniform(b: Text) { forall i | 0 < i < |b| :: b[i] == b[i - 1] }

  lemma UniformIsNowhereCrossed(a: Text, b: Text)
    requires Uniform(b)
    ensures NowhereCrossed(a, b) && NowhereCrossed(b, a)
  {
    forall i, j | 0 <= i <= |a| && 0 <= j <= |b|
      ensures !ProperlyCrossed(a, b, i, j) && !ProperlyCrossed(b, a, j, i)
    {
      if 1 < j {
        assert b[j - 1] == b[j - 2];
      }
    }
  }

  lemma {:induction false} KeepOn(a: Text, b: Text, i: nat, j: nat, k: nat, n: nat)
    requires i + k <= |a| && j + k <= |b| && Attains(a, b, i, j, n)
    requires a[i..i + k] == b[j..j + k]
    ensures Attains(a, b, i + k, j + k, n)
  {
    if k > 0 {
      assert a[i..i + k][..k - 1] == a[i..i + k - 1] && b[j..j + k][..k - 1] == b[j..j + k - 1];
      assert a[i..i + k][k - 1] == b[j..j + k][k - 1];
      KeepOn(a, b, i, j, k - 1, n);
      Extend(a, b, i + k, j + k, i + k - 1, j + k - 1, n, Keep);
    }
  }

  /** `u p q v` with its middle swapped, and with a byte put in between. */
  function SwappedAt(b: Text, m: nat): Text
    requires m + 1 < |b|
  {
    b[m := b[m + 1]][m + 1 := b[m]]
  }

  function SplitAt(b: Text, m: nat, r: byte): Text
    requires m + 1 < |b|
  {
    b[..m + 1] + [r] + b[m + 1..]
  }

  lemma DetourIsCheap(b: Text, m: nat, r: byte)
    requires m + 1 < |b|
    ensures Distance(SwappedAt(b, m), b) <= 1 && Distance(b, SplitAt(b, m, r)) <= 1
  {
    SwapIsCheap(b, m);
    SplitIsCheap(b, m, r);
  }

  lemma SwapIsCheap(b: Text, m: nat)
    requires m + 1 < |b|
    ensures Distance(SwappedAt(b, m), b) <= 1
  {
    var a, none: seq<Edit>, k := SwappedAt(b, m), [], |b| - m - 2;
    assert Transforms(none, a, b, 0, 0);
    assert a[0..0 + m] == b[0..0 + m];
    KeepOn(a, b, 0, 0, m, 0);
    Extend(a, b, m + 2, m + 2, m, m, 0, Swap);
    assert a[m + 2..m + 2 + k] == b[m + 2..m + 2 + k];
    KeepOn(a, b, m + 2, m + 2, k, 1);
  }

  lemma SplitIsCheap(b: Text, m: nat, r: byte)
    requires m + 1 < |b|
    ensures Distance(b, SplitAt(b, m, r)) <= 1
  {
    var c, none: seq<Edit>, k := SplitAt(b, m, r), [], |b| - m - 1;
    assert Transforms(none, b, c, 0, 0);
    assert b[0..0 + (m + 1)] == c[0..0 + (m + 1)];
    KeepOn(b, c, 0, 0, m + 1, 0);
    Extend(b, c, m + 1, m + 2, m + 1, m + 1, 0, Insert);
    assert b[m + 1..m + 1 + k] == c[m + 2..m + 2 + k];
    KeepOn(b, c, m + 1, m + 2, k, 1);
  }

  /** A lower bound for the direct way, on and next to the diagonal. */
  function DirectBound(m: nat, i: nat, j: nat): nat
  {
    if j == i then (if i <= m then 0 else if i == m + 1 then 1 else 2)
    else if j == i + 1 then (if i <= m then 1 else if i == m + 1 then 2 else 3)
    else Max(i - j, j - i)
  }

  lemma {:induction false} DirectIsDear(b: Text, m: nat, r: byte, i: nat, j: nat)
    requires m + 1 < |b| && b[m] != b[m + 1] && r != b[m] && r != b[m + 1]
    requires i <= |b| && j <= |b| + 1
    ensures Best(SwappedAt(b, m), SplitAt(b, m, r), i, j) >= DirectBound(m, i, j)
    decreases i + j
  {
    var a, c := SwappedAt(b, m), SplitAt(b, m, r);
    PrefixBounds(a, c, i, j);
    if 0 < i && (j == i || j == i + 1) {
      Recurrence(a, c, i, j);
      DirectIsDear(b, m, r, i - 1, j);
      DirectIsDear(b, m, r, i, j - 1);
      DirectIsDear(b, m, r, i - 1, j - 1);
      if 1 < i {
        DirectIsDear(b, m, r, i - 2, j - 2);
      }
      assert c[m] == b[m] && c[m + 1] == r && c[m + 2] == b[m + 1];
    }
  }

  lemma UnevenTextIsShortcut(b: Text, m: nat, r: byte)
    requires m + 1 < |b| && b[m] != b[m + 1] && r != b[m] && r != b[m + 1]
    ensures var a, c := SwappedAt(b, m), SplitAt(b, m, r);
            Distance(a, c) > Distance(a, b) + Distance(b, c)
  {
    DetourIsCheap(b, m, r);
    DirectIsDear(b, m, r, |b|, |b| + 1);
  }

  ghost predicate TriangleThrough(b: Text)
  {
    forall a: Text, c: Text :: Distance(a, c) <= Distance(a, b) + Distance(b, c)
  }

  /** A text is never a shortcut between two others if and only if all its bytes are the same. */
  lemma TriangleExactlyThroughUniform(b: Text)
    ensures TriangleThrough(b) <==> Uniform(b)
  {
    if Uniform(b) {
      forall a: Text, c: Text
        ensures Distance(a, c) <= Distance(a, b) + Distance(b, c)
      {
        UniformIsNowhereCrossed(a, b);
        UniformIsNowhereCrossed(c, b);
        TriangleUnlessCrossed(a, b, c);
      }
    } else {
      var i :| 0 < i < |b| && b[i] != b[i - 1];
      var r: byte := if b[i] != 0 && b[i - 1] != 0 then 0 else if b[i] != 1 && b[i - 1] != 1 then 1 else 2;
      UnevenTextIsShortcut(b, i - 1, r);
    }
  }

  // ----- the implementation with three rolling rows

  /** Row `i` of the table of distances. */
  ghost predicate IsRow(row: seq<nat>, a: Text, b: Text, i: nat)
    requires i <= |a|
  {
    |row| == |b| + 1 && forall j | 0 <= j <= |b| :: row[j] == Best(a, b, i, j)
  }

  /** Fill one row of the table from the two rows before it. */
  method FillRow(a: Text, b: Text, i: nat, prevPrev: array<nat>, prev: array<nat>, curr: array<nat>)
    requires 1 <= i <= |a| && curr != prev && curr != prevPrev && curr.Length == prevPrev.Length == |b| + 1
    requires IsRow(prev[..], a, b, i - 1)
    requires 1 < i ==> IsRow(prevPrev[..], a, b, i - 2)
    modifies curr
    ensures IsRow(curr[..], a, b, i)
  {
    ghost var above, twoAbove := prev[..], prevPrev[..];
    curr[0] := i;
    Border(a, b, i, 0);
    for j := 1 to |b| + 1
      invariant prev[..] == above && prevPrev[..] == twoAbove
      invariant forall x | 0 <= x < j :: curr[x] == Best(a, b, i, x)
    {
      var cost := if a[i - 1] != b[j - 1] then 1 else 0;
      var deletion := prev[j] + 1;
      var insertion := curr[j - 1] + 1;
      var substitution := prev[j - 1] + cost;
      var value := Min(Min(deletion, insertion), substitution);
      if i > 1 && j > 1 && a[i - 1] == b[j - 2] && a[i - 2] == b[j - 1] {
        value := Min(value, prevPrev[j - 2] + 1);
      }
      assert above[j] == prev[j] && above[j - 1] == prev[j - 1];
      assert j > 1 ==> twoAbove[j - 2] == prevPrev[j - 2];
      Recurrence(a, b, i, j);
      curr[j] := value;
    }
  }

  method DamerauLevenshtein(a: Text, b: Text) returns (distance: nat)
    ensures distance == Distance(a, b)
  {
    var rows, cols := |a|, |b|;
    if rows == 0 {
      Border(a, b, 0, cols);
      return cols;
    }
    if cols == 0 {
      Border(a, b, rows, 0);
      return rows;
    }
    var prevPrev := new nat[cols + 1](_ => 0);
    var prev := new nat[cols + 1](j => j);
    var curr := new nat[cols + 1](_ => 0);
    forall j | 0 <= j <= cols
      ensures prev[..][j] == Best(a, b, 0, j)
    {
      Border(a, b, 0, j);
    }
    for i := 1 to rows + 1
      invariant prevPrev.Length == prev.Length == curr.Length == cols + 1
      invariant prevPrev != prev && prev != curr && prevPrev != curr
      invariant fresh(prevPrev) && fresh(prev) && fresh(curr)
      invariant IsRow(prev[..], a, b, i - 1)
      invariant 1 < i ==> IsRow(prevPrev[..], a, b, i - 2)
    {
      FillRow(a, b, i, prevPrev, prev, curr);
      prevPrev, prev := prev, prevPrev;
      prev, curr := curr, prev;
    }
    distance := prev[cols];
    assert prev[..][cols] == distance;
  }

  // ----- the nearest name

  const MAX_SUGGESTION: nat := 2

  /** Index of the earliest name at the smallest distance, among those close enough; None exactly when there is none. */
  method NearestName(input: Text, names: seq<Text>) returns (best: Option<nat>)
    ensures best.None? <==> input == [] || forall i | 0 <= i < |names| :: Distance(input, names[i]) > MAX_SUGGESTION
    ensures best.Some? ==>
              && best.value < |names|
              && Distance(input, names[best.value]) <= MAX_SUGGESTION
              && (forall i | 0 <= i < |names| :: Distance(input, names[best.value]) <= Distance(input, names[i]))
              && (forall i | 0 <= i < best.value :: Distance(input, names[best.value]) < Distance(input, names[i]))
  {
    best := None;
    if input == [] { return; }
    var bestDistance := 0;
    var index := 0;
    while index < |names|
      invariant 0 <= index <= |names|
      invariant best.None? ==> forall i | 0 <= i < index :: Distance(input, names[i]) > MAX_SUGGESTION
      invariant best.Some? ==>
                  && best.value < index
                  && bestDistance == Distance(input, names[best.value]) <= MAX_SUGGESTION
                  && (forall i | 0 <= i < index :: bestDistance <= Distance(input, names[i]))
                  && (forall i | 0 <= i < best.value :: bestDistance < Distance(input, names[i]))
    {
      var name := names[index];
      var lenDiff := if |name| >= |input| then |name| - |input| else |input| - |name|;
      DistanceLaws(input, name);
      if lenDiff <= MAX_SUGGESTION {
        var distance := DamerauLevenshtein(input, name);
        if distance <= MAX_SUGGESTION {
          if best.None? {
            best, bestDistance := Some(index), distance;
          } else if distance < bestDistance || (distance == bestDistance && index < best.value) {
            best, bestDistance := Some(index), distance;
          }
        }
      }
      index := index + 1;
    }
  }
}
