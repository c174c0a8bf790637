/** The list discipline game.js uses for bullets and enemies: `splice(i, 1)` called
    from inside `forEach` on the very list being walked. After a removal the next
    element slides into the freed slot while the index still advances, so that
    element is neither updated nor tested on that pass. */
module Sweeping {

  /** `Array.prototype.splice(i, 1)`: drops the element at `i`; an index past the
      end drops nothing. */
  function Splice<T>(s: seq<T>, i: nat): seq<T>
  {
    if i < |s| then s[..i] + s[i + 1..] else s
  }

  /** What `s.forEach((e, i) => { e.update(); if (gone(e)) s.splice(i, 1); })`
      leaves behind, stated structurally: a removed head takes its successor's turn
      with it, and that successor survives untouched. */
  function Sweep<T>(s: seq<T>, step: T -> T, gone: T -> bool): (r: seq<T>)
    ensures |r| <= |s|
    decreases |s|
  {
    if s == [] then []
    else if !gone(step(s[0])) then [step(s[0])] + Sweep(s[1..], step, gone)
    else if |s| == 1 then []
    else [s[1]] + Sweep(s[2..], step, gone)
  }

  /** The list the walk will leave when it stands at index `i` of the current list
      `s`: the first `i` slots are settled, the rest is still to be swept. */
  function Resumed<T>(s: seq<T>, i: nat, step: T -> T, gone: T -> bool): seq<T>
  {
    if i <= |s| then s[..i] + Sweep(s[i..], step, gone) else s
  }

  /** One iteration of the walk (update in place, splice if gone, advance the
      index) does not change where the walk ends up. */
  lemma ResumeStep<T>(s: seq<T>, i: nat, step: T -> T, gone: T -> bool)
    requires i < |s|
    ensures var t := s[i := step(s[i])];
            Resumed(s, i, step, gone)
            == Resumed(if gone(step(s[i])) then Splice(t, i) else t, i + 1, step, gone)
  {
    var e := step(s[i]);
    var t := s[i := e];
    assert s[i..][0] == s[i];
    if !gone(e) {
      assert s[i..][1..] == s[i + 1..];
      assert t[..i + 1] == s[..i] + [e];
      assert t[i + 1..] == s[i + 1..];
    } else if i + 1 == |s| {
      assert Splice(t, i) == s[..i];
    } else {
      var u := Splice(t, i);
      assert s[i..][1] == s[i + 1];
      assert s[i..][2..] == s[i + 2..];
      assert u[..i + 1] == s[..i] + [s[i + 1]];
      assert u[i + 1..] == s[i + 2..];
    }
  }

  /** The walk itself, as an index loop over the list it shrinks. */
  method ForEachSplice<T>(s: seq<T>, step: T -> T, gone: T -> bool) returns (r: seq<T>)
    ensures r == Sweep(s, step, gone)
  {
    r := s;
    var i := 0;
    assert r[..0] + r[0..] == r;
    while i < |r|
      invariant Resumed(r, i, step, gone) == Sweep(s, step, gone)
      decreases |r| - i
    {
      ResumeStep(r, i, step, gone);
      var e := step(r[i]);
      r := r[i := e];
      if gone(e) {
        r := Splice(r, i);
      }
      i := i + 1;
    }
    assert i == |r| ==> r[..i] == r;
  }

  /** `r` arises from `s` by deleting elements and replacing each kept element `x`
      by some `y` with `rel(y, x)`; the order of the kept elements is preserved. */
  predicate Embeds<T>(r: seq<T>, s: seq<T>, rel: (T, T) -> bool)
    decreases |s|
  {
    if r == [] then true
    else if s == [] then false
    else (rel(r[0], s[0]) && Embeds(r[1..], s[1..], rel)) || Embeds(r, s[1..], rel)
  }

  /** Kept elements related by plain equality: an in-order subsequence. */
  predicate Same<T(==)>(y: T, x: T)
  {
    y == x
  }

  /** How an element survives a sweep: either skipped (unchanged) or updated and
      then found not gone. */
  function Kept<T(==)>(step: T -> T, gone: T -> bool): (T, T) -> bool
  {
    (y, x) => y == x || (y == step(x) && !gone(y))
  }

  lemma {:induction false} EmbedsShorter<T>(r: seq<T>, s: seq<T>, rel: (T, T) -> bool)
    requires Embeds(r, s, rel)
    ensures |r| <= |s|
    decreases |s|
  {
    if r != [] {
      if rel(r[0], s[0]) && Embeds(r[1..], s[1..], rel) {
        EmbedsShorter(r[1..], s[1..], rel);
      } else {
        EmbedsShorter(r, s[1..], rel);
      }
    }
  }

  lemma {:induction false} EmbedsReflexive<T>(s: seq<T>, rel: (T, T) -> bool)
    requires forall x :: rel(x, x)
    ensures Embeds(s, s, rel)
    decreases |s|
  {
    if s != [] {
      EmbedsReflexive(s[1..], rel);
    }
  }

  lemma {:induction false} EmbedsTransitive<T>(a: seq<T>, b: seq<T>, c: seq<T>, rel: (T, T) -> bool)
    requires forall x, y, z :: rel(x, y) && rel(y, z) ==> rel(x, z)
    requires Embeds(a, b, rel) && Embeds(b, c, rel)
    ensures Embeds(a, c, rel)
    decreases |c|
  {
    if a != [] {
      if Embeds(b, c[1..], rel) {
        EmbedsTransitive(a, b, c[1..], rel);
      } else if rel(a[0], b[0]) && Embeds(a[1..], b[1..], rel) {
        EmbedsTransitive(a[1..], b[1..], c[1..], rel);
      } else {
        EmbedsTransitive(a, b[1..], c[1..], rel);
      }
    }
  }

  /** A splice only deletes: one element at an index inside the list, none past its end. */
  lemma {:induction false} EmbedsSplice<T>(s: seq<T>, i: nat, rel: (T, T) -> bool)
    requires forall x :: rel(x, x)
    ensures Embeds(Splice(s, i), s, rel)
    ensures i < |s| ==> |Splice(s, i)| == |s| - 1
    ensures i >= |s| ==> Splice(s, i) == s
    decreases |s|
  {
    if i >= |s| {
      EmbedsReflexive(s, rel);
    } else if i == 0 {
      EmbedsReflexive(s[1..], rel);
      assert Splice(s, i) == s[1..];
    } else {
      EmbedsSplice(s[1..], i - 1, rel);
      assert Splice(s, i)[0] == s[0];
      assert Splice(s, i)[1..] == Splice(s[1..], i - 1);
    }
  }

  /** Overwriting one slot with a related value keeps the list embedded. */
  lemma {:induction false} EmbedsUpdate<T>(s: seq<T>, i: nat, v: T, rel: (T, T) -> bool)
    requires forall x :: rel(x, x)
    requires i < |s| && rel(v, s[i])
    ensures Embeds(s[i := v], s, rel)
    decreases |s|
  {
    if i == 0 {
      EmbedsReflexive(s[1..], rel);
      assert s[i := v][1..] == s[1..];
    } else {
      EmbedsUpdate(s[1..], i - 1, v, rel);
      assert s[i := v][1..] == s[1..][i - 1 := v];
    }
  }

  /** A sweep never adds: what it leaves is the input with deletions, each kept
      element either skipped or updated and not gone. */
  lemma {:induction false} SweepEmbeds<T>(s: seq<T>, step: T -> T, gone: T -> bool)
    ensures Embeds(Sweep(s, step, gone), s, Kept(step, gone))
    decreases |s|
  {
    if s != [] && !gone(step(s[0])) {
      SweepEmbeds(s[1..], step, gone);
    } else if |s| > 1 {
      SweepEmbeds(s[2..], step, gone);
      assert s[1..][1..] == s[2..];
      assert Embeds(Sweep(s, step, gone), s[1..], Kept(step, gone));
    }
  }

  /** `r` arises from `s` by deleting only elements that satisfy `dropped`; each
      element not deleted is kept, replaced by some `y` with `rel(y, x)`, in order. */
  predicate Thins<T>(r: seq<T>, s: seq<T>, rel: (T, T) -> bool, dropped: T -> bool)
    decreases |s|
  {
    if s == [] then r == []
    else (r != [] && rel(r[0], s[0]) && Thins(r[1..], s[1..], rel, dropped))
         || (dropped(s[0]) && Thins(r, s[1..], rel, dropped))
  }

  /** A sweep deletes only elements that its own update made gone (any `dropped`
      covering those will do); every other element is kept, skipped or updated. */
  lemma {:induction false} SweepThins<T>(s: seq<T>, step: T -> T, gone: T -> bool, dropped: T -> bool)
    requires forall x :: gone(step(x)) ==> dropped(x)
    ensures Thins(Sweep(s, step, gone), s, Kept(step, gone), dropped)
    decreases |s|
  {
    if s != [] && !gone(step(s[0])) {
      SweepThins(s[1..], step, gone, dropped);
    } else if |s| == 1 {
      assert dropped(s[0]);
      assert s[1..] == [];
    } else if |s| > 1 {
      SweepThins(s[2..], step, gone, dropped);
      assert dropped(s[0]);
      assert s[1..][1..] == s[2..];
      assert Thins(Sweep(s, step, gone), s[1..], Kept(step, gone), dropped);
    }
  }

  /** Removal happens only to an element that is gone after its own update: when
      no element would be gone, every element is updated and kept. */
  lemma {:induction false} SweepKeepsAll<T>(s: seq<T>, step: T -> T, gone: T -> bool)
    requires forall i :: 0 <= i < |s| ==> !gone(step(s[i]))
    ensures |Sweep(s, step, gone)| == |s|
    ensures forall i :: 0 <= i < |s| ==> Sweep(s, step, gone)[i] == step(s[i])
    decreases |s|
  {
    if s != [] {
      assert !gone(step(s[0]));
      SweepKeepsAll(s[1..], step, gone);
      assert forall i :: 1 <= i < |s| ==> s[1..][i - 1] == s[i];
    }
  }
}
