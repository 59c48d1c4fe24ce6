/**
 * The ranking loop of `buscar_unidades_pensamientoDHH`: walk the similarity
 * scores from highest to lowest, keep those reaching the user's threshold, and
 * for each kept score build the entry of the candidate found by
 * `list(similitudes).index(score)`, the FIRST candidate holding that score.
 * Equal scores therefore yield repeated entries for that first candidate, and
 * the later candidates with the same score never appear.
 */
module Ranking {

  import opened Verses

  ghost predicate NonIncreasing(s: seq<real>)
  {
    forall i, j :: 0 <= i < j < |s| ==> s[i] >= s[j]
  }

  /** Places x into a non-increasing sequence. */
  function InsertDesc(x: real, s: seq<real>): (r: seq<real>)
    requires NonIncreasing(s)
    ensures |r| == |s| + 1 && NonIncreasing(r)
    ensures multiset(r) == multiset(s) + multiset{x}
    ensures r[0] == (if s == [] || x >= s[0] then x else s[0])
  {
    if s == [] || x >= s[0] then [x] + s
    else
      assert s == [s[0]] + s[1..];
      [s[0]] + InsertDesc(x, s[1..])
  }

  /** `sorted(similitudes, reverse=True)`: the same scores, highest first. */
  function SortDesc(s: seq<real>): (r: seq<real>)
    ensures |r| == |s| && NonIncreasing(r)
    ensures multiset(r) == multiset(s)
  {
    if s == [] then []
    else
      assert s == [s[0]] + s[1..];
      InsertDesc(s[0], SortDesc(s[1..]))
  }

  /** `list.index`: the first position holding x. */
  function IndexOf(s: seq<real>, x: real): (i: nat)
    requires x in s
    ensures i < |s| && s[i] == x
    ensures forall q :: 0 <= q < i ==> s[q] != x
  {
    if s[0] == x then 0 else 1 + IndexOf(s[1..], x)
  }

  /** How many of the scores reach the threshold t. */
  function CountAtLeast(s: seq<real>, t: real): nat
  {
    if s == [] then 0
    else (if s[0] >= t then 1 else 0) + CountAtLeast(s[1..], t)
  }

  /** The entry built for score x: the candidate at the first index holding x. */
  function UnitFor(contenidos: seq<string>, referencias: seq<Reference>, similitudes: seq<real>, x: real): SimilarUnit
    requires |contenidos| == |similitudes| && |referencias| == |similitudes|
    requires x in similitudes
  {
    var k := IndexOf(similitudes, x);
    SimilarUnit(x, contenidos[k], referencias[k].book, referencias[k].chapter, referencias[k].number)
  }

  /** The loop run over the first n scores of `ordered`: an entry for each score reaching the threshold. */
  function Emit(ordered: seq<real>, n: nat, contenidos: seq<string>, referencias: seq<Reference>,
                similitudes: seq<real>, umbral: real): seq<SimilarUnit>
    requires n <= |ordered|
    requires |contenidos| == |similitudes| && |referencias| == |similitudes|
    requires forall k :: 0 <= k < |ordered| ==> ordered[k] in similitudes
  {
    if n == 0 then []
    else
      Emit(ordered, n - 1, contenidos, referencias, similitudes, umbral)
      + (if ordered[n - 1] >= umbral then [UnitFor(contenidos, referencias, similitudes, ordered[n - 1])] else [])
  }

  lemma SortedScoresOccur(similitudes: seq<real>)
    ensures forall k :: 0 <= k < |SortDesc(similitudes)| ==> SortDesc(similitudes)[k] in similitudes
  {
    var ordered := SortDesc(similitudes);
    forall k | 0 <= k < |ordered| ensures ordered[k] in similitudes {
      assert ordered[k] in multiset(ordered);
    }
  }

  /** The ranked list: the loop run over the scores sorted highest first. */
  function Ranked(contenidos: seq<string>, referencias: seq<Reference>, similitudes: seq<real>,
                  umbral: real): seq<SimilarUnit>
    requires |contenidos| == |similitudes| && |referencias| == |similitudes|
  {
    SortedScoresOccur(similitudes);
    Emit(SortDesc(similitudes), |similitudes|, contenidos, referencias, similitudes, umbral)
  }

  /** The scores of a list of entries, in list order. */
  function Scores(r: seq<SimilarUnit>): (s: seq<real>)
    ensures |s| == |r|
    ensures forall i :: 0 <= i < |r| ==> s[i] == r[i].similitud
  {
    seq(|r|, i requires 0 <= i < |r| => r[i].similitud)
  }

  /** The scores reaching the threshold t, in their original order. */
  function AtLeast(s: seq<real>, t: real): seq<real>
  {
    if s == [] then []
    else AtLeast(s[..|s| - 1], t) + (if s[|s| - 1] >= t then [s[|s| - 1]] else [])
  }

  /** A score occurs among those reaching t as often as in s when it reaches t, and never otherwise. */
  lemma {:induction false} AtLeastMultiplicity(s: seq<real>, t: real, x: real)
    ensures multiset(AtLeast(s, t))[x] == if x >= t then multiset(s)[x] else 0
    decreases |s|
  {
    if s != [] {
      var n := |s| - 1;
      AtLeastMultiplicity(s[..n], t, x);
      assert s == s[..n] + [s[n]];
      assert multiset(s) == multiset(s[..n]) + multiset{s[n]};
    }
  }

  /** Reordering the scores reorders those reaching the threshold in the same way. */
  lemma AtLeastPermutation(a: seq<real>, b: seq<real>, t: real)
    requires multiset(a) == multiset(b)
    ensures multiset(AtLeast(a, t)) == multiset(AtLeast(b, t))
  {
    forall x ensures multiset(AtLeast(a, t))[x] == multiset(AtLeast(b, t))[x] {
      AtLeastMultiplicity(a, t, x);
      AtLeastMultiplicity(b, t, x);
    }
  }

  /** Counting distributes over concatenation. */
  lemma {:induction false} CountAppend(a: seq<real>, b: seq<real>, t: real)
    ensures CountAtLeast(a + b, t) == CountAtLeast(a, t) + CountAtLeast(b, t)
    decreases |a|
  {
    if a == [] {
      assert a + b == b;
    } else {
      assert (a + b)[0] == a[0] && (a + b)[1..] == a[1..] + b;
      CountAppend(a[1..], b, t);
    }
  }

  lemma {:induction false} CountInsert(x: real, s: seq<real>, t: real)
    requires NonIncreasing(s)
    ensures CountAtLeast(InsertDesc(x, s), t) == CountAtLeast(s, t) + (if x >= t then 1 else 0)
    decreases |s|
  {
    if s != [] && x < s[0] {
      var r := InsertDesc(x, s);
      assert r[1..] == InsertDesc(x, s[1..]);
      CountInsert(x, s[1..], t);
    } else {
      var r := InsertDesc(x, s);
      assert r[1..] == s;
    }
  }

  /** Sorting does not change how many scores reach a threshold. */
  lemma {:induction false} CountSort(s: seq<real>, t: real)
    ensures CountAtLeast(SortDesc(s), t) == CountAtLeast(s, t)
    decreases |s|
  {
    if s != [] {
      CountSort(s[1..], t);
      CountInsert(s[0], SortDesc(s[1..]), t);
    }
  }

  /** A higher threshold is reached by no more scores. */
  lemma {:induction false} CountMonotone(s: seq<real>, t1: real, t2: real)
    requires t1 <= t2
    ensures CountAtLeast(s, t2) <= CountAtLeast(s, t1)
    decreases |s|
  {
    if s != [] {
      CountMonotone(s[1..], t1, t2);
    }
  }

  /** The loop yields one entry per score reaching the threshold. */
  lemma {:induction false} EmitLength(ordered: seq<real>, n: nat, contenidos: seq<string>, referencias: seq<Reference>,
                                      similitudes: seq<real>, umbral: real)
    requires n <= |ordered|
    requires |contenidos| == |similitudes| && |referencias| == |similitudes|
    requires forall k :: 0 <= k < |ordered| ==> ordered[k] in similitudes
    ensures |Emit(ordered, n, contenidos, referencias, similitudes, umbral)| == CountAtLeast(ordered[..n], umbral)
  {
    if n == 0 {
      assert ordered[..0] == [];
    } else {
      EmitLength(ordered, n - 1, contenidos, referencias, similitudes, umbral);
      assert ordered[..n] == ordered[..n - 1] + [ordered[n - 1]];
      CountAppend(ordered[..n - 1], [ordered[n - 1]], umbral);
      assert [ordered[n - 1]][1..] == [];
    }
  }

  /** The loop lists exactly the walked scores that reach the threshold, in the order walked. */
  lemma {:induction false} EmitScores(ordered: seq<real>, n: nat, contenidos: seq<string>, referencias: seq<Reference>,
                                      similitudes: seq<real>, umbral: real)
    requires n <= |ordered|
    requires |contenidos| == |similitudes| && |referencias| == |similitudes|
    requires forall k :: 0 <= k < |ordered| ==> ordered[k] in similitudes
    ensures Scores(Emit(ordered, n, contenidos, referencias, similitudes, umbral)) == AtLeast(ordered[..n], umbral)
  {
    if n == 0 {
      assert ordered[..0] == [];
    } else {
      EmitScores(ordered, n - 1, contenidos, referencias, similitudes, umbral);
      var prev := Emit(ordered, n - 1, contenidos, referencias, similitudes, umbral);
      var x := ordered[n - 1];
      var tail := if x >= umbral then [UnitFor(contenidos, referencias, similitudes, x)] else [];
      assert ordered[..n][..n - 1] == ordered[..n - 1];
      assert Scores(tail) == (if x >= umbral then [x] else []);
      assert Scores(prev + tail) == Scores(prev) + Scores(tail);
    }
  }

  /** Every entry reaches the threshold and is built from the first candidate holding its score. */
  ghost predicate EntriesFromFirst(r: seq<SimilarUnit>, contenidos: seq<string>, referencias: seq<Reference>,
                                   similitudes: seq<real>, umbral: real)
    requires |contenidos| == |similitudes| && |referencias| == |similitudes|
  {
    forall i :: 0 <= i < |r| ==>
      && r[i].similitud >= umbral
      && r[i].similitud in similitudes
      && r[i] == UnitFor(contenidos, referencias, similitudes, r[i].similitud)
  }

  /** The entries' scores do not increase down the list. */
  ghost predicate ScoresNonIncreasing(r: seq<SimilarUnit>)
  {
    forall i, j :: 0 <= i < j < |r| ==> r[i].similitud >= r[j].similitud
  }

  /** No entry scores below x. */
  ghost predicate ScoresAtLeast(r: seq<SimilarUnit>, x: real)
  {
    forall i :: 0 <= i < |r| ==> r[i].similitud >= x
  }

  lemma {:induction false} EmitEntries(ordered: seq<real>, n: nat, contenidos: seq<string>, referencias: seq<Reference>,
                                       similitudes: seq<real>, umbral: real)
    requires n <= |ordered|
    requires |contenidos| == |similitudes| && |referencias| == |similitudes|
    requires forall k :: 0 <= k < |ordered| ==> ordered[k] in similitudes
    ensures EntriesFromFirst(Emit(ordered, n, contenidos, referencias, similitudes, umbral),
                             contenidos, referencias, similitudes, umbral)
  {
    if n > 0 {
      EmitEntries(ordered, n - 1, contenidos, referencias, similitudes, umbral);
      var prev := Emit(ordered, n - 1, contenidos, referencias, similitudes, umbral);
      var r := Emit(ordered, n, contenidos, referencias, similitudes, umbral);
      var x := ordered[n - 1];
      var u := UnitFor(contenidos, referencias, similitudes, x);
      assert u.similitud == x;
      assert r == prev + (if x >= umbral then [u] else []);
      forall i | 0 <= i < |r|
        ensures r[i].similitud >= umbral && r[i].similitud in similitudes
        ensures r[i] == UnitFor(contenidos, referencias, similitudes, r[i].similitud)
      {
        if i < |prev| {
          assert r[i] == prev[i];
        } else {
          assert r[i] == u && x >= umbral;
        }
      }
    }
  }

  /**
   * Over non-increasing scores the loop's entries do not increase, and none
   * is below the last score walked.
   */
  lemma {:induction false} EmitOrdered(ordered: seq<real>, n: nat, contenidos: seq<string>, referencias: seq<Reference>,
                                       similitudes: seq<real>, umbral: real)
    requires n <= |ordered|
    requires |contenidos| == |similitudes| && |referencias| == |similitudes|
    requires forall k :: 0 <= k < |ordered| ==> ordered[k] in similitudes
    requires NonIncreasing(ordered)
    ensures ScoresNonIncreasing(Emit(ordered, n, contenidos, referencias, similitudes, umbral))
    ensures n > 0 ==> ScoresAtLeast(Emit(ordered, n, contenidos, referencias, similitudes, umbral), ordered[n - 1])
  {
    if n > 0 {
      EmitOrdered(ordered, n - 1, contenidos, referencias, similitudes, umbral);
      var prev := Emit(ordered, n - 1, contenidos, referencias, similitudes, umbral);
      var r := Emit(ordered, n, contenidos, referencias, similitudes, umbral);
      var x := ordered[n - 1];
      var u := UnitFor(contenidos, referencias, similitudes, x);
      assert u.similitud == x;
      assert r == prev + (if x >= umbral then [u] else []);
      assert n > 1 ==> ordered[n - 2] >= x;
      assert n == 1 ==> prev == [];
      forall i | 0 <= i < |r|
        ensures r[i].similitud >= x && (i < |prev| ==> r[i] == prev[i])
      {
        if i < |prev| {
          assert r[i] == prev[i];
        } else {
          assert r[i] == u;
        }
      }
    }
  }

  /**
   * What the ranked list promises: scores in non-increasing order, each at
   * least the threshold, as many entries as scores reaching the threshold,
   * and each entry's text and reference taken from the first candidate
   * holding its score.
   */
  lemma RankedShape(contenidos: seq<string>, referencias: seq<Reference>, similitudes: seq<real>, umbral: real)
    requires |contenidos| == |similitudes| && |referencias| == |similitudes|
    ensures var r := Ranked(contenidos, referencias, similitudes, umbral);
            && |r| == CountAtLeast(similitudes, umbral)
            && multiset(Scores(r)) == multiset(AtLeast(similitudes, umbral))
            && (forall i, j :: 0 <= i < j < |r| ==> r[i].similitud >= r[j].similitud)
            && (forall i :: 0 <= i < |r| ==> r[i].similitud >= umbral)
            && (forall i :: 0 <= i < |r| ==>
                  r[i].similitud in similitudes
                  && r[i].contenido == contenidos[IndexOf(similitudes, r[i].similitud)]
                  && r[i].libro == referencias[IndexOf(similitudes, r[i].similitud)].book
                  && r[i].capitulo == referencias[IndexOf(similitudes, r[i].similitud)].chapter
                  && r[i].versiculo == referencias[IndexOf(similitudes, r[i].similitud)].number)
  {
    var ordered := SortDesc(similitudes);
    SortedScoresOccur(similitudes);
    EmitLength(ordered, |ordered|, contenidos, referencias, similitudes, umbral);
    EmitEntries(ordered, |ordered|, contenidos, referencias, similitudes, umbral);
    EmitOrdered(ordered, |ordered|, contenidos, referencias, similitudes, umbral);
    EmitScores(ordered, |ordered|, contenidos, referencias, similitudes, umbral);
    assert ordered[..|ordered|] == ordered;
    CountSort(similitudes, umbral);
    AtLeastPermutation(ordered, similitudes, umbral);
  }

  /** Raising the threshold never lengthens the ranked list. */
  lemma RankedMonotone(contenidos: seq<string>, referencias: seq<Reference>, similitudes: seq<real>,
                       t1: real, t2: real)
    requires |contenidos| == |similitudes| && |referencias| == |similitudes|
    requires t1 <= t2
    ensures |Ranked(contenidos, referencias, similitudes, t2)| <= |Ranked(contenidos, referencias, similitudes, t1)|
  {
    RankedShape(contenidos, referencias, similitudes, t1);
    RankedShape(contenidos, referencias, similitudes, t2);
    CountMonotone(similitudes, t1, t2);
  }

  /**
   * Equal scores: two candidates scoring the same x, at or above the
   * threshold, yield two copies of the first candidate's entry; the second
   * candidate is not listed.
   */
  lemma TiedScoresRepeatFirst(a: string, b: string, ra: Reference, rb: Reference, x: real, umbral: real)
    requires x >= umbral
    ensures Ranked([a, b], [ra, rb], [x, x], umbral)
         == [SimilarUnit(x, a, ra.book, ra.chapter, ra.number), SimilarUnit(x, a, ra.book, ra.chapter, ra.number)]
  {
    var s := [x, x];
    assert s[1..] == [x] && [x][1..] == [];
    assert SortDesc([x]) == [x];
    assert SortDesc(s) == s;
    assert IndexOf(s, x) == 0;
    var u := UnitFor([a, b], [ra, rb], s, x);
    assert u == SimilarUnit(x, a, ra.book, ra.chapter, ra.number);
    var e1 := Emit(s, 1, [a, b], [ra, rb], s, umbral);
    assert e1 == Emit(s, 0, [a, b], [ra, rb], s, umbral) + [u];
    assert Emit(s, 2, [a, b], [ra, rb], s, umbral) == e1 + [u];
  }

  /**
   * The loop itself: sorts the scores, walks them highest first and appends
   * an entry for each one reaching the threshold.
   */
  method Rank(contenidos: seq<string>, referencias: seq<Reference>, similitudes: seq<real>, umbral: real)
    returns (unidades: seq<SimilarUnit>)
    requires |contenidos| == |similitudes| && |referencias| == |similitudes|
    ensures unidades == Ranked(contenidos, referencias, similitudes, umbral)
    ensures |unidades| == CountAtLeast(similitudes, umbral)
    ensures multiset(Scores(unidades)) == multiset(AtLeast(similitudes, umbral))
    ensures forall i, j :: 0 <= i < j < |unidades| ==> unidades[i].similitud >= unidades[j].similitud
    ensures forall i :: 0 <= i < |unidades| ==> unidades[i].similitud >= umbral
  {
    var ordenadas := SortDesc(similitudes);
    SortedScoresOccur(similitudes);
    unidades := [];
    for i := 0 to |ordenadas|
      invariant unidades == Emit(ordenadas, i, contenidos, referencias, similitudes, umbral)
    {
      var similitud := ordenadas[i];
      if similitud >= umbral {
        var indice := IndexOf(similitudes, similitud);
        unidades := unidades + [SimilarUnit(similitud, contenidos[indice], referencias[indice].book,
                                            referencias[indice].chapter, referencias[indice].number)];
      }
    }
    RankedShape(contenidos, referencias, similitudes, umbral);
  }
}
