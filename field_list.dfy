/** The operations on the ordered field sequence: lookup by id, the clamped
    reorder of moveField, the filter of deleteField, the copy appended by
    duplicateField and the one-record update of an inspector edit, each as
    a function from the old sequence to the new one. */
module FieldList {
  import opened Fields

  predicate HasId(s: seq<Field>, id: Id)
  {
    exists k :: 0 <= k < |s| && s[k].id == id
  }

  /** No two fields share an id. */
  predicate UniqueIds(s: seq<Field>)
  {
    forall i, j :: 0 <= i < j < |s| ==> s[i].id != s[j].id
  }

  /** `fields.findIndex(x => x.id === id)`: the first position holding `id`,
      or -1 when there is none. */
  function IndexOf(s: seq<Field>, id: Id): (i: int)
    ensures -1 <= i < |s|
    ensures i == -1 <==> !HasId(s, id)
    ensures 0 <= i ==> s[i].id == id && forall k :: 0 <= k < i ==> s[k].id != id
    decreases |s|
  {
    if s == [] then -1
    else if s[0].id == id then 0
    else
      var j := IndexOf(s[1..], id);
      assert forall k :: 1 <= k < |s| ==> s[1..][k - 1] == s[k];
      if j < 0 then -1 else j + 1
  }

  /** With unique ids, the position of a field's id is that field's position. */
  lemma {:induction false} IndexOfUnique(s: seq<Field>, k: nat)
    requires UniqueIds(s) && k < |s|
    ensures IndexOf(s, s[k].id) == k
  {
  }

  function RemoveAt(s: seq<Field>, i: nat): (r: seq<Field>)
    requires i < |s|
    ensures |r| == |s| - 1
  {
    s[..i] + s[i + 1..]
  }

  function InsertAt(s: seq<Field>, k: nat, x: Field): (r: seq<Field>)
    requires k <= |s|
    ensures |r| == |s| + 1
  {
    s[..k] + [x] + s[k..]
  }

  /** `Math.min(Math.max(0, x), len - 1)` */
  function Clamp(x: int, len: nat): (r: int)
    requires len > 0
    ensures 0 <= r < len
    ensures 0 <= x < len ==> r == x
    ensures x < 0 ==> r == 0
    ensures x >= len ==> r == len - 1
  {
    var lo := if 0 > x then 0 else x;
    if lo < len - 1 then lo else len - 1
  }

  /** moveField(id, dir): the field with `id` is taken out and put back at
      the clamped target position; nothing happens when the id is absent or
      the target is the field's own position. */
  function Moved(s: seq<Field>, id: Id, dir: int): (r: seq<Field>)
    ensures |r| == |s|
  {
    var i := IndexOf(s, id);
    if i < 0 then s
    else
      var t := Clamp(i + dir, |s|);
      if t == i then s else InsertAt(RemoveAt(s, i), t, s[i])
  }

  /** Where Moved takes the field it puts at position k, for a field moved
      from position i to position t. */
  function MovedSource(i: nat, t: nat, k: nat): nat
  {
    if k == t then i
    else if t < i && t < k <= i then k - 1
    else if i < t && i <= k < t then k + 1
    else k
  }

  lemma {:induction false} MovedAt(s: seq<Field>, id: Id, dir: int, k: nat)
    requires k < |s|
    requires 0 <= IndexOf(s, id)
    ensures var i := IndexOf(s, id);
            var t := Clamp(i + dir, |s|);
            MovedSource(i, t, k) < |s| && Moved(s, id, dir)[k] == s[MovedSource(i, t, k)]
  {
    var i := IndexOf(s, id);
    var t := Clamp(i + dir, |s|);
    MovedShape(s, id, dir);
    if t != i {
      InsertRemoveAt(s, i, t, k);
    }
  }

  lemma MovedShape(s: seq<Field>, id: Id, dir: int)
    requires 0 <= IndexOf(s, id)
    ensures var i := IndexOf(s, id);
            var t := Clamp(i + dir, |s|);
            Moved(s, id, dir) == if t == i then s else InsertAt(RemoveAt(s, i), t, s[i])
  {
    var i := IndexOf(s, id);
    var t := Clamp(i + dir, |s|);
    var r := Moved(s, id, dir);
    if t == i {
      assert r == s;
    } else {
      assert r == InsertAt(RemoveAt(s, i), t, s[i]);
    }
  }

  lemma InsertRemoveAt(s: seq<Field>, i: nat, t: nat, k: nat)
    requires i < |s| && t < |s| && k < |s|
    ensures MovedSource(i, t, k) < |s|
    ensures InsertAt(RemoveAt(s, i), t, s[i])[k] == s[MovedSource(i, t, k)]
  {
    var u := RemoveAt(s, i);
    var r := InsertAt(u, t, s[i]);
    assert r[k] == if k < t then u[k] else if k == t then s[i] else u[k - 1];
    assert forall j :: 0 <= j < |u| ==> u[j] == if j < i then s[j] else s[j + 1];
  }

  /** Moving keeps the same fields: the result is a permutation. */
  lemma {:induction false} MovedIsPermutation(s: seq<Field>, id: Id, dir: int)
    ensures multiset(Moved(s, id, dir)) == multiset(s)
  {
    var i := IndexOf(s, id);
    if i >= 0 {
      var t := Clamp(i + dir, |s|);
      if t != i {
        assert Moved(s, id, dir) == InsertAt(RemoveAt(s, i), t, s[i]);
        InsertRemovePerm(s, i, t);
      }
    }
  }

  lemma InsertRemovePerm(s: seq<Field>, i: nat, t: nat)
    requires i < |s| && t < |s|
    ensures multiset(InsertAt(RemoveAt(s, i), t, s[i])) == multiset(s)
  {
    var u := RemoveAt(s, i);
    assert s == s[..i] + [s[i]] + s[i + 1..];
    assert multiset(u) + multiset{s[i]} == multiset(s);
    assert u == u[..t] + u[t..];
  }

  /** A real move puts the field at the clamped target and leaves every
      other field in its relative order. */
  lemma {:induction false} MovedPlacement(s: seq<Field>, id: Id, dir: int)
    requires 0 <= IndexOf(s, id)
    requires Clamp(IndexOf(s, id) + dir, |s|) != IndexOf(s, id)
    ensures var i := IndexOf(s, id);
            var t := Clamp(i + dir, |s|);
            Moved(s, id, dir)[t] == s[i] && RemoveAt(Moved(s, id, dir), t) == RemoveAt(s, i)
  {
    var i := IndexOf(s, id);
    InsertThenRemove(RemoveAt(s, i), Clamp(i + dir, |s|), s[i]);
  }

  lemma {:induction false} InsertThenRemove(u: seq<Field>, t: nat, x: Field)
    requires t <= |u|
    ensures InsertAt(u, t, x)[t] == x && RemoveAt(InsertAt(u, t, x), t) == u
  {
    var r := InsertAt(u, t, x);
    assert r[..t] == u[..t];
    assert r[t + 1..] == u[t..];
  }

  /** With the UI's directions -1 (up) and +1 (down), a move that happens
      swaps the field with its neighbour in that direction. */
  lemma {:induction false} MovedStepIsSwap(s: seq<Field>, id: Id, dir: int)
    requires dir == -1 || dir == 1
    requires 0 <= IndexOf(s, id)
    requires Clamp(IndexOf(s, id) + dir, |s|) != IndexOf(s, id)
    ensures var i := IndexOf(s, id);
            0 <= i + dir < |s|
            && Moved(s, id, dir) == s[i := s[i + dir]][i + dir := s[i]]
  {
    var i := IndexOf(s, id);
    var t := Clamp(i + dir, |s|);
    var r := Moved(s, id, dir);
    var w := s[i := s[i + dir]][i + dir := s[i]];
    forall k | 0 <= k < |s| ensures r[k] == w[k] {
      MovedAt(s, id, dir, k);
    }
  }

  /** Moving the first field up and the last field down change nothing. */
  lemma {:induction false} MoveAtEdgesIsNoOp(s: seq<Field>)
    requires UniqueIds(s) && s != []
    ensures Moved(s, s[0].id, -1) == s
    ensures Moved(s, s[|s| - 1].id, 1) == s
  {
    IndexOfUnique(s, 0);
    IndexOfUnique(s, |s| - 1);
  }

  /** With unique ids a move changes the sequence exactly when the id is
      present and the clamped target differs from the field's position. */
  lemma {:induction false} MovedChangesIff(s: seq<Field>, id: Id, dir: int)
    requires UniqueIds(s)
    ensures Moved(s, id, dir) != s <==>
            (HasId(s, id) && Clamp(IndexOf(s, id) + dir, |s|) != IndexOf(s, id))
  {
    var i := IndexOf(s, id);
    if i >= 0 {
      var t := Clamp(i + dir, |s|);
      if t != i {
        MovedPlacement(s, id, dir);
        assert s[t].id != s[i].id;
      }
    }
  }

  /** Three fields, the second moved up: [second, first, third]. */
  lemma {:induction false} MoveSecondUp(a: Field, b: Field, c: Field)
    requires a.id != b.id && b.id != c.id && a.id != c.id
    ensures Moved([a, b, c], b.id, -1) == [b, a, c]
  {
    assert IndexOf([a, b, c], b.id) == 1 by { IndexOfUnique([a, b, c], 1); }
    MovedStepIsSwap([a, b, c], b.id, -1);
  }

  lemma {:induction false} RemoveAtUnique(s: seq<Field>, i: nat)
    requires UniqueIds(s) && i < |s|
    ensures UniqueIds(RemoveAt(s, i))
    ensures forall k :: 0 <= k < |s| - 1 ==> RemoveAt(s, i)[k].id != s[i].id
  {
    var u := RemoveAt(s, i);
    assert forall k :: 0 <= k < |u| ==> u[k] == s[if k < i then k else k + 1];
  }

  lemma {:induction false} InsertAtUnique(u: seq<Field>, t: nat, x: Field)
    requires UniqueIds(u) && t <= |u|
    requires forall k :: 0 <= k < |u| ==> u[k].id != x.id
    ensures UniqueIds(InsertAt(u, t, x))
  {
    var r := InsertAt(u, t, x);
    assert forall k :: 0 <= k < |r| && k != t ==> r[k] == u[if k < t then k else k - 1];
  }

  /** Moving keeps ids unique. */
  lemma {:induction false} MovedUnique(s: seq<Field>, id: Id, dir: int)
    requires UniqueIds(s)
    ensures UniqueIds(Moved(s, id, dir))
  {
    var i := IndexOf(s, id);
    if i >= 0 {
      var t := Clamp(i + dir, |s|);
      MovedShape(s, id, dir);
      if t != i {
        RemoveAtUnique(s, i);
        InsertAtUnique(RemoveAt(s, i), t, s[i]);
      }
    }
  }

  /** `fields.filter(x => x.id !== id)`: every field with another id, in order. */
  function Without(s: seq<Field>, id: Id): (r: seq<Field>)
    ensures forall f :: f in r <==> f in s && f.id != id
    ensures |r| <= |s|
    decreases |s|
  {
    if s == [] then []
    else if s[0].id == id then Without(s[1..], id)
    else [s[0]] + Without(s[1..], id)
  }

  /** The filter keeps order: filtering a concatenation filters each part. */
  lemma {:induction false} WithoutAppend(a: seq<Field>, b: seq<Field>, id: Id)
    ensures Without(a + b, id) == Without(a, id) + Without(b, id)
    decreases |a|
  {
    if a == [] {
      assert a + b == b;
    } else {
      assert (a + b)[1..] == a[1..] + b;
      WithoutAppend(a[1..], b, id);
    }
  }

  /** Deleting an id that is not there changes nothing. */
  lemma {:induction false} WithoutAbsent(s: seq<Field>, id: Id)
    requires !HasId(s, id)
    ensures Without(s, id) == s
    decreases |s|
  {
    if s != [] {
      assert !HasId(s[1..], id) by {
        assert forall k :: 0 <= k < |s| - 1 ==> s[1..][k] == s[k + 1];
      }
      WithoutAbsent(s[1..], id);
      assert s == [s[0]] + s[1..];
    }
  }

  /** A second delete of the same id is a no-op. */
  lemma {:induction false} WithoutIdempotent(s: seq<Field>, id: Id)
    ensures Without(Without(s, id), id) == Without(s, id)
  {
    WithoutAbsent(Without(s, id), id);
  }

  /** With unique ids, the filter is the splice of the one field with `id`. */
  lemma {:induction false} WithoutIsRemoveAt(s: seq<Field>, id: Id)
    requires UniqueIds(s) && HasId(s, id)
    ensures Without(s, id) == RemoveAt(s, IndexOf(s, id))
  {
    var i := IndexOf(s, id);
    NoIdAroundIndex(s, id);
    assert s == s[..i] + ([s[i]] + s[i + 1..]);
    WithoutAround(s[..i], s[i], s[i + 1..], id);
  }

  lemma {:induction false} NoIdAroundIndex(s: seq<Field>, id: Id)
    requires UniqueIds(s) && HasId(s, id)
    ensures var i := IndexOf(s, id);
            !HasId(s[..i], id) && !HasId(s[i + 1..], id)
  {
    var i := IndexOf(s, id);
    var pre, post := s[..i], s[i + 1..];
    assert !HasId(pre, id) by {
      forall k | 0 <= k < |pre| ensures pre[k].id != id {
        assert pre[k] == s[k];
      }
    }
    assert !HasId(post, id) by {
      forall k | 0 <= k < |post| ensures post[k].id != id {
        assert post[k] == s[i + 1 + k];
      }
    }
  }

  lemma {:induction false} WithoutAround(pre: seq<Field>, x: Field, post: seq<Field>, id: Id)
    requires !HasId(pre, id) && !HasId(post, id) && x.id == id
    ensures Without(pre + ([x] + post), id) == pre + post
  {
    WithoutAbsent(pre, id);
    WithoutAbsent(post, id);
    WithoutAppend(pre, [x] + post, id);
    assert ([x] + post)[1..] == post;
  }

  /** Deleting keeps ids unique. */
  lemma {:induction false} WithoutUnique(s: seq<Field>, id: Id)
    requires UniqueIds(s)
    ensures UniqueIds(Without(s, id))
    decreases |s|
  {
    if s != [] {
      var t := s[1..];
      assert UniqueIds(t) by {
        assert forall k :: 0 <= k < |t| ==> t[k] == s[k + 1];
      }
      WithoutUnique(t, id);
      if s[0].id != id {
        var r := [s[0]] + Without(t, id);
        forall k | 1 <= k < |r| ensures r[k].id != s[0].id {
          assert r[k] in Without(t, id);
          var j :| 0 <= j < |t| && t[j] == r[k];
          assert s[j + 1] == r[k];
        }
      }
    }
  }

  /** The copy duplicateField appends: a fresh id and " (copy)" after the
      label, every other property as in the source field. */
  function Copy(f: Field, newId: Id): (g: Field)
    ensures SameExcept(f.(id := newId), g, LabelProp)
    ensures g.labelText == f.labelText + " (copy)"
    ensures WellFormed(f) ==> WellFormed(g)
  {
    f.(id := newId, labelText := f.labelText + " (copy)")
  }

  /** duplicateField(id): a copy of the first field with `id`, under the id
      `newId`, appended at the end; nothing happens for an unknown id. */
  function Duplicated(s: seq<Field>, id: Id, newId: Id): (r: seq<Field>)
    ensures !HasId(s, id) ==> r == s
    ensures HasId(s, id) ==>
              |r| == |s| + 1 && r[..|s|] == s
              && r[|s|].id == newId && r[|s|].labelText == s[IndexOf(s, id)].labelText + " (copy)"
              && SameExcept(s[IndexOf(s, id)].(id := newId), r[|s|], LabelProp)
  {
    var i := IndexOf(s, id);
    if i < 0 then s else s + [Copy(s[i], newId)]
  }

  /** Appending a field whose id is new keeps ids unique. */
  lemma {:induction false} AppendUnique(s: seq<Field>, f: Field)
    requires UniqueIds(s) && !HasId(s, f.id)
    ensures UniqueIds(s + [f])
  {
  }

  /** An inspector edit on the record with `id`: that record gets the patch,
      every other record stays as it was. */
  function Updated(s: seq<Field>, id: Id, p: Patch): (r: seq<Field>)
    ensures |r| == |s|
    ensures forall k :: 0 <= k < |s| ==> SameExcept(s[k], r[k], Touches(p))
    ensures forall k :: 0 <= k < |s| && s[k].id == id ==> Holds(r[k], p)
    ensures forall k :: 0 <= k < |s| && s[k].id != id ==> r[k] == s[k]
  {
    seq(|s|, k requires 0 <= k < |s| => if s[k].id == id then ApplyPatch(s[k], p) else s[k])
  }

  /** An edit of an id that is not there changes nothing. */
  lemma {:induction false} UpdatedAbsent(s: seq<Field>, id: Id, p: Patch)
    requires !HasId(s, id)
    ensures Updated(s, id, p) == s
  {
  }
}
