/**
 The walk of pkg/llmsettings that rejects a value JSON cannot hold: one with a map whose keys are
 not strings, or one that refers back to itself.
 */
module CycleDetector {
  import opened Text

  /** A map, pointer or slice on the path, as the source identifies it. */
  datatype Visit = Visit(typ: nat, ptr: nat, len: nat)

  /** A value as reflection shows it; address 0 is nil. */
  datatype Value =
    | Scalar
    | Interface(elem: Option<Value>)
    | Array(elems: seq<Value>)
    | Pointer(typ: nat, addr: nat)
    | Map(typ: nat, stringKeys: bool, addr: nat)
    | Slice(typ: nat, addr: nat, len: nat)

  /** What the maps, pointers and slices hold. A cell that is not there holds nothing. */
  type Heap = map<Visit, seq<Value>>

  predicate IsBadMap(v: Value) { v.Map? && !v.stringKeys }

  // The walk

  /** What is walked at most once on a path: a non-nil pointer or map, or a slice with elements. */
  function Target(v: Value): Option<Visit> {
    match v
    case Pointer(typ, addr) => if addr == 0 then None else Some(Visit(typ, addr, 0))
    case Map(typ, stringKeys, addr) => if !stringKeys || addr == 0 then None else Some(Visit(typ, addr, 0))
    case Slice(typ, addr, len) => if len == 0 then None else Some(Visit(typ, addr, len))
    case _ => None
  }

  function Cell(h: Heap, key: Visit): seq<Value> { if key in h then h[key] else [] }

  /** The verdict of the walk with the given cells on the path. */
  ghost predicate Bad(h: Heap, v: Value, active: set<Visit>)
    decreases h.Keys - active, v
  {
    match v
    case Scalar => false
    case Interface(e) => e.Some? && Bad(h, e.value, active)
    case Array(es) => exists i :: 0 <= i < |es| && Bad(h, es[i], active)
    case _ =>
      IsBadMap(v) ||
      match Target(v)
      case None => false
      case Some(key) =>
        key in active || (key in h && exists i :: 0 <= i < |h[key]| && Bad(h, h[key][i], active + {key}))
  }

  // What a value holds

  /** The value refers to a cell: it is a pointer or a map that is not nil, or a slice with elements. */
  predicate Refers(v: Value) {
    ((v.Pointer? || v.Map?) && v.addr != 0) || (v.Slice? && v.len != 0)
  }

  /** Its type, address and length. */
  function Identity(v: Value): Visit
    requires Refers(v)
  {
    Visit(v.typ, v.addr, if v.Slice? then v.len else 0)
  }

  /** `w` is the element of an interface or an array, or is in the cell that `v` refers to. */
  ghost predicate Holds(h: Heap, v: Value, w: Value) {
    || (v.Interface? && v.elem == Some(w))
    || (v.Array? && w in v.elems)
    || (Refers(v) && Identity(v) in h && w in h[Identity(v)])
  }

  /** Each value on the path holds the next one. */
  ghost predicate IsPath(h: Heap, p: seq<Value>) {
    p != [] && forall i :: 0 <= i < |p| - 1 ==> Holds(h, p[i], p[i + 1])
  }

  /** The cells that the values on the path refer to. */
  ghost function Visits(p: seq<Value>): set<Visit> {
    set i | 0 <= i < |p| && Refers(p[i]) :: Identity(p[i])
  }

  /** The path ends at a map with other keys, or at a cell it has been at before. */
  ghost predicate Offends(p: seq<Value>, active: set<Visit>)
    requires p != []
  {
    var v := p[|p| - 1];
    IsBadMap(v) || (Refers(v) && (Identity(v) in active || Identity(v) in Visits(p[..|p| - 1])))
  }

  ghost predicate Witness(h: Heap, v: Value, active: set<Visit>, p: seq<Value>) {
    IsPath(h, p) && p[0] == v && Offends(p, active)
  }

  /** The cells on the path once `v` is on it. */
  function Entered(v: Value, active: set<Visit>): set<Visit> {
    if Refers(v) then active + {Identity(v)} else active
  }

  // The walk is exact

  /** The verdict at a value, from the verdicts on what it holds. */
  lemma {:induction false} BadStep(h: Heap, v: Value, active: set<Visit>)
    ensures Bad(h, v, active) <==>
            || IsBadMap(v)
            || (Refers(v) && Identity(v) in active)
            || exists w :: Holds(h, v, w) && Bad(h, w, Entered(v, active))
  {
    if v.Interface? {
      if v.elem.Some? {
        assert Holds(h, v, v.elem.value);
      }
    } else if v.Array? {
      var es := v.elems;
      assert Bad(h, v, active) <==> exists i :: 0 <= i < |es| && Bad(h, es[i], active);
      assert forall i :: 0 <= i < |es| ==> Holds(h, v, es[i]);
    } else if !IsBadMap(v) && Refers(v) {
      CellStep(h, v, active);
    }
  }

  lemma {:induction false} CellStep(h: Heap, v: Value, active: set<Visit>)
    requires !IsBadMap(v) && Refers(v)
    ensures Bad(h, v, active) <==> Identity(v) in active || exists w :: Holds(h, v, w) && Bad(h, w, active + {Identity(v)})
  {
    var key := Identity(v);
    assert Target(v) == Some(key);
    if key in h {
      assert Bad(h, v, active) <==> key in active || exists i :: 0 <= i < |h[key]| && Bad(h, h[key][i], active + {key});
      assert forall i :: 0 <= i < |h[key]| ==> Holds(h, v, h[key][i]);
    }
  }

  /** What the walk reports has a path that shows it. */
  lemma {:induction false} BadHasPath(h: Heap, v: Value, active: set<Visit>) returns (p: seq<Value>)
    requires Bad(h, v, active)
    ensures Witness(h, v, active, p)
    decreases h.Keys - active, v
  {
    hide Bad;
    BadStep(h, v, active);
    if IsBadMap(v) || (Refers(v) && Identity(v) in active) {
      p := [v];
    } else {
      var w :| Holds(h, v, w) && Bad(h, w, Entered(v, active));
      var q := BadHasPath(h, w, Entered(v, active));
      p := [v] + q;
      PathLonger(h, v, active, q);
    }
  }

  lemma {:induction false} PathLonger(h: Heap, v: Value, active: set<Visit>, q: seq<Value>)
    requires q != [] && Holds(h, v, q[0])
    ensures Witness(h, v, active, [v] + q) <==> Witness(h, q[0], Entered(v, active), q)
  {
    hide Holds;
    var p := [v] + q;
    assert forall i :: 0 <= i < |q| ==> p[i + 1] == q[i];
    assert p[..|p| - 1] == [v] + q[..|q| - 1];
    VisitsCons(v, q[..|q| - 1]);
    PathCons(h, v, q);
  }

  lemma {:induction false} PathCons(h: Heap, v: Value, q: seq<Value>)
    requires q != [] && Holds(h, v, q[0])
    ensures IsPath(h, [v] + q) <==> IsPath(h, q)
  {
    hide Holds;
    var p := [v] + q;
    assert forall i :: 0 < i < |p| ==> p[i] == q[i - 1];
    if IsPath(h, p) {
      forall i | 0 <= i < |q| - 1 ensures Holds(h, q[i], q[i + 1]) {
        assert Holds(h, p[i + 1], p[(i + 1) + 1]);
      }
    }
  }

  lemma {:induction false} VisitsCons(v: Value, q: seq<Value>)
    ensures Visits([v] + q) == Visits(q) + (if Refers(v) then {Identity(v)} else {})
  {
    var p := [v] + q;
    assert forall i :: 0 <= i < |q| ==> p[i + 1] == q[i];
    assert p[0] == v;
  }

  /** A path that offends is found. */
  lemma {:induction false} PathIsBad(h: Heap, v: Value, active: set<Visit>, p: seq<Value>)
    requires Witness(h, v, active, p)
    ensures Bad(h, v, active)
    decreases |p|
  {
    hide Bad, Holds;
    BadStep(h, v, active);
    if |p| == 1 {
      assert p[..0] == [];
    } else {
      var q := p[1..];
      assert p == [v] + q && Holds(h, p[0], p[0 + 1]);
      PathLonger(h, v, active, q);
      PathIsBad(h, q[0], Entered(v, active), q);
    }
  }

  /** The walk is exact: it rejects a value if and only if some path from it reaches a map whose keys
      are not strings, or comes to a map, pointer or slice a second time. */
  lemma {:induction false} Exact(h: Heap, v: Value)
    ensures Bad(h, v, {}) <==> exists p :: Witness(h, v, {}, p)
  {
    hide Bad, Witness;
    if Bad(h, v, {}) {
      var p := BadHasPath(h, v, {});
    }
    forall p | Witness(h, v, {}, p) ensures Bad(h, v, {}) {
      PathIsBad(h, v, {}, p);
    }
  }

  /** Every path from an accepted value is free of such maps and of repetitions, from end to end. */
  lemma {:induction false} AcceptedPaths(h: Heap, p: seq<Value>, j: nat)
    requires IsPath(h, p) && !Bad(h, p[0], {}) && j < |p|
    ensures !IsBadMap(p[j])
    ensures forall i :: 0 <= i < j && Refers(p[i]) && Refers(p[j]) ==> Identity(p[i]) != Identity(p[j])
  {
    hide Bad, Holds;
    var q := p[..j + 1];
    assert q[..|q| - 1] == p[..j];
    if Offends(q, {}) {
      PathIsBad(h, p[0], {}, q);
    }
    assert forall i :: 0 <= i < j && Refers(p[i]) ==> Identity(p[..j][i]) in Visits(p[..j]);
  }

  /** A value that holds a rejected one, in any of the ways of holding, is rejected. */
  lemma {:induction false} HolderRejected(h: Heap, v: Value, w: Value)
    requires Holds(h, v, w) && Bad(h, w, {})
    ensures Bad(h, v, {})
  {
    hide Bad, Holds;
    var q := BadHasPath(h, w, {});
    var p := [v] + q;
    PathCons(h, v, q);
    assert p[|p| - 1] == q[|q| - 1] && p[..|p| - 1] == [v] + q[..|q| - 1];
    VisitsCons(v, q[..|q| - 1]);
    PathIsBad(h, v, {}, p);
  }

  // Order and sharing

  /** The same cells, holding the same values in another order or number. */
  ghost predicate SameCells(h: Heap, k: Heap) {
    h.Keys == k.Keys && forall key, c :: key in h ==> (c in h[key] <==> c in k[key])
  }

  /** The order in which a map's values are visited does not matter. */
  lemma {:induction false} OrderIrrelevant(h: Heap, k: Heap, v: Value, active: set<Visit>)
    requires SameCells(h, k)
    ensures Bad(h, v, active) <==> Bad(k, v, active)
  {
    hide Bad;
    assert forall v, w :: Holds(h, v, w) <==> Holds(k, v, w);
    hide Holds;
    if Bad(h, v, active) {
      var p := BadHasPath(h, v, active);
      PathIsBad(k, v, active, p);
    }
    if Bad(k, v, active) {
      var p := BadHasPath(k, v, active);
      PathIsBad(h, v, active, p);
    }
  }

  /** Every cell that `v` refers to ranks below `n`, and `v` itself holds no offending map. */
  ghost predicate Below(rank: map<Visit, nat>, v: Value, n: nat) {
    match v
    case Interface(e) => e.Some? ==> Below(rank, e.value, n)
    case Array(es) => forall i :: 0 <= i < |es| ==> Below(rank, es[i], n)
    case _ => !IsBadMap(v) && (Refers(v) ==> Identity(v) in rank && rank[Identity(v)] < n)
  }

  /** The cells can be ranked so that each refers only to lower ones. */
  ghost predicate Acyclic(h: Heap, rank: map<Visit, nat>) {
    forall key, i :: key in h && key in rank && 0 <= i < |h[key]| ==> Below(rank, h[key][i], rank[key])
  }

  /** Values that share cells without a cycle are accepted, however often a cell is shared. */
  lemma {:induction false} SharingAccepted(h: Heap, v: Value, rank: map<Visit, nat>, n: nat, active: set<Visit>)
    requires Acyclic(h, rank) && Below(rank, v, n)
    requires forall key :: key in active && key in rank ==> n <= rank[key]
    ensures !Bad(h, v, active)
    decreases n, v
  {
    if v.Interface? {
      if v.elem.Some? {
        SharingAccepted(h, v.elem.value, rank, n, active);
      }
    } else if v.Array? {
      forall i | 0 <= i < |v.elems| ensures !Bad(h, v.elems[i], active) {
        SharingAccepted(h, v.elems[i], rank, n, active);
      }
    } else if Refers(v) && Identity(v) in h {
      var key := Identity(v);
      forall i | 0 <= i < |h[key]| ensures !Bad(h, h[key][i], active + {key}) {
        SharingAccepted(h, h[key][i], rank, rank[key], active + {key});
      }
    }
  }

  // Unfolding

  /** Written out in full, `v` is a tree of at most `n` levels below its root, and holds no offending map. */
  ghost predicate Unfolds(h: Heap, v: Value, n: nat)
    decreases n
  {
    !IsBadMap(v) && forall w :: Holds(h, v, w) ==> n > 0 && Unfolds(h, w, n - 1)
  }

  lemma {:induction false} UnfoldsDeeper(h: Heap, v: Value, m: nat, n: nat)
    requires Unfolds(h, v, m) && m <= n
    ensures Unfolds(h, v, n)
    decreases m
  {
    hide Holds;
    forall w | Holds(h, v, w) ensures n > 0 && Unfolds(h, w, n - 1) {
      UnfoldsDeeper(h, w, m - 1, n - 1);
    }
  }

  /** Written out in full, `v` is a finite tree. */
  ghost predicate IsFinite(h: Heap, v: Value) { exists n: nat :: Unfolds(h, v, n) }

  /** The elements of a sequence that unfold do so to some common depth. */
  lemma {:induction false} CommonDepth(h: Heap, vs: seq<Value>, k: nat) returns (n: nat)
    requires k <= |vs| && forall i :: 0 <= i < |vs| ==> IsFinite(h, vs[i])
    ensures forall i :: 0 <= i < k ==> Unfolds(h, vs[i], n)
  {
    hide Unfolds;
    n := 0;
    if k > 0 {
      var m := CommonDepth(h, vs, k - 1);
      assert IsFinite(h, vs[k - 1]);
      var l: nat :| Unfolds(h, vs[k - 1], l);
      n := if m < l then l else m;
      forall i | 0 <= i < k ensures Unfolds(h, vs[i], n) {
        UnfoldsDeeper(h, vs[i], if i < k - 1 then m else l, n);
      }
    }
  }

  /** The values that `v` holds, in a sequence. */
  lemma {:induction false} Members(h: Heap, v: Value) returns (vs: seq<Value>)
    ensures forall w :: Holds(h, v, w) <==> w in vs
    ensures forall i :: 0 <= i < |vs| ==> v.Interface? || v.Array? ==> vs[i] < v
  {
    if v.Interface? {
      vs := if v.elem.Some? then [v.elem.value] else [];
    } else if v.Array? {
      vs := v.elems;
    } else {
      vs := if Refers(v) && Identity(v) in h then h[Identity(v)] else [];
    }
  }

  lemma {:induction false} AcceptedUnfolds(h: Heap, v: Value, active: set<Visit>) returns (n: nat)
    requires !Bad(h, v, active)
    ensures Unfolds(h, v, n)
    decreases h.Keys - active, v
  {
    hide Bad, Holds;
    BadStep(h, v, active);
    var vs := Members(h, v);
    forall i | 0 <= i < |vs| ensures IsFinite(h, vs[i]) {
      EnteredLess(h, v, active, vs[i]);
      var m := AcceptedUnfolds(h, vs[i], Entered(v, active));
    }
    var m := CommonDepth(h, vs, |vs|);
    n := m + 1;
  }

  /** What is held is walked with fewer cells off the path, or is part of the value. */
  lemma {:induction false} EnteredLess(h: Heap, v: Value, active: set<Visit>, w: Value)
    requires Holds(h, v, w) && !(Refers(v) && Identity(v) in active)
    ensures if Refers(v) then h.Keys - Entered(v, active) < h.Keys - active else Entered(v, active) == active && w < v
  {
    if Refers(v) {
      assert Identity(v) in h.Keys - active;
    } else if v.Array? {
      assert w in v.elems;
    }
  }

  /** Along a path, what is left to unfold gets less. */
  lemma {:induction false} UnfoldsAlong(h: Heap, p: seq<Value>, n: nat, j: nat)
    requires IsPath(h, p) && Unfolds(h, p[0], n) && j < |p|
    ensures j <= n && Unfolds(h, p[j], n - j)
    decreases j
  {
    hide Holds;
    if j > 0 {
      UnfoldsAlong(h, p, n, j - 1);
      assert Holds(h, p[j - 1], p[(j - 1) + 1]);
    }
  }

  /** Values with the same cell unfold alike. */
  lemma {:induction false} SameUnfolds(h: Heap, v: Value, w: Value, n: nat)
    requires Refers(v) && Refers(w) && Identity(v) == Identity(w) && Unfolds(h, v, n) && !IsBadMap(w)
    ensures Unfolds(h, w, n)
  {
    assert forall u :: Holds(h, v, u) <==> Holds(h, w, u);
  }

  /** A value that is reached from its like does not unfold. */
  lemma {:induction false} CycleNeverUnfolds(h: Heap, p: seq<Value>, n: nat)
    requires IsPath(h, p) && |p| > 1 && Unfolds(h, p[0], n)
    requires Refers(p[0]) && Refers(p[|p| - 1]) && Identity(p[0]) == Identity(p[|p| - 1])
    ensures false
    decreases n
  {
    hide Unfolds, Holds;
    UnfoldsAlong(h, p, n, |p| - 1);
    SoundRoot(h, p[0], n);
    SameUnfolds(h, p[|p| - 1], p[0], n - (|p| - 1));
    CycleNeverUnfolds(h, p, n - (|p| - 1));
  }

  lemma {:induction false} SoundRoot(h: Heap, v: Value, n: nat)
    requires Unfolds(h, v, n)
    ensures !IsBadMap(v)
  {
  }

  /** The walk accepts exactly the values that can be written out as a finite tree. */
  lemma {:induction false} AcceptsFiniteTrees(h: Heap, v: Value)
    ensures !Bad(h, v, {}) <==> IsFinite(h, v)
  {
    hide Bad, Unfolds, Holds;
    if !Bad(h, v, {}) {
      var n := AcceptedUnfolds(h, v, {});
    } else {
      var p := BadHasPath(h, v, {});
      forall n: nat | Unfolds(h, v, n) ensures false {
        OffendsNeverUnfolds(h, p, n);
      }
    }
  }

  lemma {:induction false} OffendsNeverUnfolds(h: Heap, p: seq<Value>, n: nat)
    requires IsPath(h, p) && Offends(p, {}) && Unfolds(h, p[0], n)
    ensures false
  {
    hide Unfolds, Holds;
    var j := |p| - 1;
    UnfoldsAlong(h, p, n, j);
    SoundRoot(h, p[j], n - j);
    var i :| 0 <= i < |p[..j]| && Refers(p[..j][i]) && Identity(p[..j][i]) == Identity(p[j]);
    UnfoldsAlong(h, p, n, i);
    var q := p[i..];
    assert forall k :: 0 <= k < |q| ==> q[k] == p[i + k];
    forall k | 0 <= k < |q| - 1 ensures Holds(h, q[k], q[k + 1]) {
      assert Holds(h, p[i + k], p[(i + k) + 1]);
    }
    CycleNeverUnfolds(h, q, n - i);
  }

  // The walk with its shared path

  lemma {:induction false} WalkedAll(h: Heap, v: Value, active: set<Visit>, key: Visit)
    requires Target(v) == Some(key)
    ensures Bad(h, v, active) <==> key in active || exists c :: c in Cell(h, key) && Bad(h, c, active + {key})
  {
    if key in h {
      var cs, on := h[key], active + {key};
      assert Bad(h, v, active) <==> key in active || exists i :: 0 <= i < |cs| && Bad(h, cs[i], on);
      if i :| 0 <= i < |cs| && Bad(h, cs[i], on) {
        assert cs[i] in Cell(h, key);
      }
      if c :| c in cs && Bad(h, c, on) {
        var i :| 0 <= i < |cs| && cs[i] == c;
        assert Bad(h, cs[i], on);
      }
    } else {
      assert Cell(h, key) == [];
    }
  }

  class Walker {
    var active: set<Visit>

    constructor ()
      ensures active == {}
    {
      active := {};
    }

    /** Reports whether `v` cannot be encoded, and leaves the path as it was. */
    method Unencodable(h: Heap, v: Value) returns (bad: bool)
      modifies this
      ensures bad == Bad(h, v, old(active)) && active == old(active)
      decreases h.Keys - active, v, 1
    {
      match v {
        case Scalar => bad := false;
        case Interface(e) =>
          bad := false;
          if e.Some? {
            bad := Unencodable(h, e.value);
          }
        case Array(es) => bad := ElementsUnencodable(h, es, v);
        case Pointer(typ, addr) =>
          bad := false;
          if addr != 0 {
            bad := WalkOnce(h, v, Visit(typ, addr, 0));
          }
        case Map(typ, stringKeys, addr) =>
          bad := !stringKeys;
          if stringKeys && addr != 0 {
            bad := WalkOnce(h, v, Visit(typ, addr, 0));
          }
        case Slice(typ, addr, len) =>
          bad := false;
          if len != 0 {
            bad := WalkOnce(h, v, Visit(typ, addr, len));
          }
      }
    }

    method ElementsUnencodable(h: Heap, es: seq<Value>, ghost v: Value) returns (bad: bool)
      requires v == Array(es)
      modifies this
      ensures bad == (exists i :: 0 <= i < |es| && Bad(h, es[i], old(active))) && active == old(active)
      decreases h.Keys - active, v, 0
    {
      for i := 0 to |es|
        invariant active == old(active)
        invariant forall j :: 0 <= j < i ==> !Bad(h, es[j], old(active))
      {
        bad := Unencodable(h, es[i]);
        if bad {
          return;
        }
      }
      bad := false;
    }

    /** Walks what `v` holds with its cell on the path, in any order; a cell on the path already is
        a cycle. */
    method WalkOnce(h: Heap, v: Value, key: Visit) returns (bad: bool)
      requires Target(v) == Some(key)
      modifies this
      ensures bad == Bad(h, v, old(active)) && active == old(active)
      decreases h.Keys - active, v, 0
    {
      if key in active {
        return true;
      }
      active := active + {key};
      ghost var on := active;
      var todo := multiset(Cell(h, key));
      bad := false;
      while todo != multiset{} && !bad
        invariant active == on == old(active) + {key}
        invariant todo <= multiset(Cell(h, key))
        invariant !bad ==> forall c :: c in Cell(h, key) && c !in todo ==> !Bad(h, c, on)
        invariant bad ==> exists c :: c in Cell(h, key) && Bad(h, c, on)
        decreases |todo|
      {
        var c :| c in todo;
        bad := Unencodable(h, c);
        todo := todo - multiset{c};
      }
      WalkedAll(h, v, old(active), key);
      active := active - {key};
    }
  }
}
