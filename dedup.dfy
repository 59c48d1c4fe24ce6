/**
 * Deduplication of the accumulated verses by id, as the dict comprehension
 * `{v['id']: v for v in versiculos}.values()` does it: a Python dict keeps
 * its keys in order of first insertion, and storing under a key that is
 * already present overwrites the value without moving the key. So the
 * survivors are ordered by the first appearance of their id, and each is the
 * last verse carrying that id.
 */
module Dedup {

  import opened Verses

  /** The ids occurring in vs. */
  function IdSet(vs: seq<Verse>): set<int>
  {
    set i | 0 <= i < |vs| :: vs[i].id
  }

  /** The position of the first verse with id k. */
  function FirstIndex(vs: seq<Verse>, k: int): (p: nat)
    requires k in IdSet(vs)
    ensures p < |vs| && vs[p].id == k
    ensures forall q :: 0 <= q < p ==> vs[q].id != k
    decreases |vs|
  {
    if vs[0].id == k then 0
    else
      assert k in IdSet(vs[1..]) by {
        var i :| 0 <= i < |vs| && vs[i].id == k;
        assert vs[1..][i - 1] == vs[i];
      }
      1 + FirstIndex(vs[1..], k)
  }

  /** The position of the last verse with id k. */
  function LastIndex(vs: seq<Verse>, k: int): (p: nat)
    requires k in IdSet(vs)
    ensures p < |vs| && vs[p].id == k
    ensures forall q :: p < q < |vs| ==> vs[q].id != k
    decreases |vs|
  {
    var n := |vs| - 1;
    if vs[n].id == k then n
    else
      assert k in IdSet(vs[..n]) by {
        var i :| 0 <= i < |vs| && vs[i].id == k;
        assert vs[..n][i] == vs[i];
      }
      LastIndex(vs[..n], k)
  }

  /** A Python dict from id to verse: its keys in insertion order, and its entries. */
  datatype Dict = Dict(keys: seq<int>, entries: map<int, Verse>)

  /** Every key listed once, and the listed keys are exactly the stored ones. */
  ghost predicate WellFormed(d: Dict)
  {
    && (forall i, j :: 0 <= i < j < |d.keys| ==> d.keys[i] != d.keys[j])
    && (forall i :: 0 <= i < |d.keys| ==> d.keys[i] in d.entries)
    && (forall k :: k in d.entries ==> k in d.keys)
  }

  /** `d[v['id']] = v`: a new key goes to the end; an existing one keeps its place. */
  function Store(d: Dict, v: Verse): Dict
  {
    if v.id in d.entries then Dict(d.keys, d.entries[v.id := v])
    else Dict(d.keys + [v.id], d.entries[v.id := v])
  }

  /** The dict the comprehension builds, storing the verses left to right. */
  function Comprehension(vs: seq<Verse>): Dict
  {
    if vs == [] then Dict([], map[])
    else Store(Comprehension(vs[..|vs| - 1]), vs[|vs| - 1])
  }

  /** `.values()`: the entries in key order. */
  function Values(d: Dict): seq<Verse>
    requires WellFormed(d)
  {
    seq(|d.keys|, i requires 0 <= i < |d.keys| => d.entries[d.keys[i]])
  }

  lemma IdSetSnoc(vs: seq<Verse>, v: Verse)
    ensures IdSet(vs + [v]) == IdSet(vs) + {v.id}
  {
    var w := vs + [v];
    forall k | k in IdSet(w) ensures k in IdSet(vs) + {v.id} {
      var i :| 0 <= i < |w| && w[i].id == k;
      if i < |vs| { assert vs[i] == w[i]; }
    }
    forall k | k in IdSet(vs) ensures k in IdSet(w) {
      var i :| 0 <= i < |vs| && vs[i].id == k;
      assert w[i] == vs[i];
    }
    assert w[|vs|] == v;
  }

  /** Appending a verse does not move the first occurrence of an id already present. */
  lemma FirstIndexSnoc(vs: seq<Verse>, v: Verse, k: int)
    requires k in IdSet(vs)
    ensures k in IdSet(vs + [v]) && FirstIndex(vs + [v], k) == FirstIndex(vs, k)
  {
    IdSetSnoc(vs, v);
    var w := vs + [v];
    var p, p' := FirstIndex(vs, k), FirstIndex(w, k);
    assert w[p] == vs[p];
    assert p' < |vs| ==> vs[p'] == w[p'];
  }

  /** An id new to vs first occurs at the appended verse. */
  lemma FirstIndexSnocNew(vs: seq<Verse>, v: Verse)
    requires v.id !in IdSet(vs)
    ensures v.id in IdSet(vs + [v]) && FirstIndex(vs + [v], v.id) == |vs|
  {
    IdSetSnoc(vs, v);
  }

  /** Appending a verse moves the last occurrence of its own id only. */
  lemma LastIndexSnoc(vs: seq<Verse>, v: Verse, k: int)
    requires k in IdSet(vs + [v])
    ensures k == v.id ==> LastIndex(vs + [v], k) == |vs|
    ensures k != v.id ==> k in IdSet(vs) && LastIndex(vs + [v], k) == LastIndex(vs, k)
  {
    IdSetSnoc(vs, v);
    assert (vs + [v])[..|vs|] == vs;
  }

  /** The dict's keys are the ids of vs. */
  ghost predicate KeysAre(d: Dict, vs: seq<Verse>)
  {
    d.entries.Keys == IdSet(vs)
  }

  /** Each id maps to the last verse of vs carrying it. */
  ghost predicate LastWins(d: Dict, vs: seq<Verse>)
    requires KeysAre(d, vs)
  {
    forall k :: k in d.entries ==> d.entries[k] == vs[LastIndex(vs, k)]
  }

  /** The keys are listed in order of the first occurrence of each id in vs. */
  ghost predicate FirstOrder(d: Dict, vs: seq<Verse>)
    requires WellFormed(d) && KeysAre(d, vs)
  {
    forall i, j :: 0 <= i < j < |d.keys| ==> FirstIndex(vs, d.keys[i]) < FirstIndex(vs, d.keys[j])
  }

  /** The dict d is what the comprehension leaves after storing vs. */
  ghost predicate Describes(d: Dict, vs: seq<Verse>)
  {
    WellFormed(d) && KeysAre(d, vs) && LastWins(d, vs) && FirstOrder(d, vs)
  }

  lemma StoreWellFormed(d: Dict, vs: seq<Verse>, v: Verse)
    requires WellFormed(d) && KeysAre(d, vs)
    ensures WellFormed(Store(d, v)) && KeysAre(Store(d, v), vs + [v])
  {
    IdSetSnoc(vs, v);
  }

  lemma StoreLastWins(d: Dict, vs: seq<Verse>, v: Verse)
    requires WellFormed(d) && KeysAre(d, vs) && LastWins(d, vs)
    ensures KeysAre(Store(d, v), vs + [v]) && LastWins(Store(d, v), vs + [v])
  {
    StoreWellFormed(d, vs, v);
    var w, d' := vs + [v], Store(d, v);
    forall k | k in d'.entries
      ensures d'.entries[k] == w[LastIndex(w, k)]
    {
      LastIndexSnoc(vs, v, k);
    }
  }

  lemma FirstIndexSnocAll(vs: seq<Verse>, v: Verse)
    ensures forall k :: k in IdSet(vs) ==> k in IdSet(vs + [v]) && FirstIndex(vs + [v], k) == FirstIndex(vs, k)
  {
    forall k | k in IdSet(vs)
      ensures k in IdSet(vs + [v]) && FirstIndex(vs + [v], k) == FirstIndex(vs, k)
    {
      FirstIndexSnoc(vs, v, k);
    }
  }

  lemma StoreFirstOrder(d: Dict, vs: seq<Verse>, v: Verse)
    requires WellFormed(d) && KeysAre(d, vs) && FirstOrder(d, vs)
    ensures WellFormed(Store(d, v)) && KeysAre(Store(d, v), vs + [v]) && FirstOrder(Store(d, v), vs + [v])
  {
    StoreWellFormed(d, vs, v);
    FirstIndexSnocAll(vs, v);
    if v.id !in d.entries {
      StoreFirstOrderNew(d, vs, v);
    }
  }

  lemma StoreFirstOrderNew(d: Dict, vs: seq<Verse>, v: Verse)
    requires WellFormed(d) && KeysAre(d, vs) && FirstOrder(d, vs) && v.id !in d.entries
    requires WellFormed(Store(d, v)) && KeysAre(Store(d, v), vs + [v])
    ensures FirstOrder(Store(d, v), vs + [v])
  {
    var w, d' := vs + [v], Store(d, v);
    FirstIndexSnocAll(vs, v);
    FirstIndexSnocNew(vs, v);
    forall i, j | 0 <= i < j < |d'.keys|
      ensures FirstIndex(w, d'.keys[i]) < FirstIndex(w, d'.keys[j])
    {
      var ki := d.keys[i];
      assert d'.keys[i] == ki && ki in d.entries && ki in IdSet(vs);
      if j < |d.keys| {
        var kj := d.keys[j];
        assert d'.keys[j] == kj && kj in d.entries && kj in IdSet(vs);
        assert FirstIndex(vs, ki) < FirstIndex(vs, kj);
      } else {
        assert d'.keys[j] == v.id;
      }
    }
  }

  /** What the comprehension's dict holds after storing vs. */
  lemma {:induction false} ComprehensionFacts(vs: seq<Verse>)
    ensures Describes(Comprehension(vs), vs)
    decreases |vs|
  {
    if vs == [] {
      assert IdSet(vs) == {};
    } else {
      var n := |vs| - 1;
      var pre, v := vs[..n], vs[n];
      assert vs == pre + [v];
      ComprehensionFacts(pre);
      StoreWellFormed(Comprehension(pre), pre, v);
      StoreLastWins(Comprehension(pre), pre, v);
      StoreFirstOrder(Comprehension(pre), pre, v);
    }
  }

  /** The values of a dict that describes vs, in key order. */
  lemma ValuesFacts(d: Dict, vs: seq<Verse>)
    requires Describes(d, vs)
    ensures |Values(d)| == |d.keys|
    ensures forall i :: 0 <= i < |d.keys| ==> Values(d)[i].id == d.keys[i]
    ensures IdSet(Values(d)) == IdSet(vs)
  {
    var r := Values(d);
    forall i | 0 <= i < |d.keys| ensures r[i].id == d.keys[i] {
      assert r[i] == vs[LastIndex(vs, d.keys[i])];
    }
    forall k | k in IdSet(vs) ensures k in IdSet(r) {
      assert k in d.keys;
      var i :| 0 <= i < |d.keys| && d.keys[i] == k;
      assert r[i].id == k;
    }
  }

  /**
   * `{v['id']: v for v in vs}.values()`: one verse per id of vs, the last one
   * carrying it, ordered by where each id first occurs in vs.
   */
  function DedupById(vs: seq<Verse>): (r: seq<Verse>)
    ensures forall i, j :: 0 <= i < j < |r| ==> r[i].id != r[j].id
    ensures IdSet(r) == IdSet(vs)
    ensures forall i :: 0 <= i < |r| ==> r[i].id in IdSet(vs) && r[i] == vs[LastIndex(vs, r[i].id)]
    ensures forall i, j :: 0 <= i < j < |r| ==> FirstIndex(vs, r[i].id) < FirstIndex(vs, r[j].id)
  {
    ComprehensionFacts(vs);
    ValuesFacts(Comprehension(vs), vs);
    Values(Comprehension(vs))
  }
}
