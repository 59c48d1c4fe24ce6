/**
 * Query expansion (`buscar_versiculos_con_sinonimos`): for every token of the
 * paragraph, in order, the verses found for the token itself and then the
 * verses found for each of its synonyms; the accumulated list is then
 * deduplicated by verse id. The two services are total functions from a word
 * to the reply the service gives for it.
 */
module Expansion {

  import opened Verses
  import opened Synonyms
  import opened Dedup

  /** What f yields for the first n words, concatenated in order. */
  function Gather(words: seq<string>, n: nat, f: string -> seq<Verse>): seq<Verse>
    requires n <= |words|
  {
    if n == 0 then []
    else Gather(words, n - 1, f) + f(words[n - 1])
  }

  /** The lookup of one word: the verses of the service's reply. */
  function LookupFn(verseApi: string -> VerseResponse): string -> seq<Verse>
  {
    w => VersesOf(verseApi(w))
  }

  /** The verses found for each word, concatenated in order. */
  function LookupAll(words: seq<string>, verseApi: string -> VerseResponse): seq<Verse>
  {
    Gather(words, |words|, LookupFn(verseApi))
  }

  /** What one token adds: its own verses, then the verses of its synonyms. */
  function Contribution(palabra: string, verseApi: string -> VerseResponse,
                        synonymApi: string -> SynonymResponse): seq<Verse>
  {
    VersesOf(verseApi(palabra)) + LookupAll(SynonymsOf(synonymApi(palabra)), verseApi)
  }

  function ContributionFn(verseApi: string -> VerseResponse, synonymApi: string -> SynonymResponse)
    : string -> seq<Verse>
  {
    w => Contribution(w, verseApi, synonymApi)
  }

  /** The accumulated list before deduplication: the tokens' contributions in order. */
  function Expanded(palabras: seq<string>, verseApi: string -> VerseResponse,
                    synonymApi: string -> SynonymResponse): seq<Verse>
  {
    Gather(palabras, |palabras|, ContributionFn(verseApi, synonymApi))
  }

  /**
   * The nested loops: grows the list token by token and synonym by synonym,
   * then keeps one verse per id.
   */
  method BuscarVersiculosConSinonimos(palabras: seq<string>, verseApi: string -> VerseResponse,
                                      synonymApi: string -> SynonymResponse)
    returns (versiculos: seq<Verse>)
    ensures versiculos == DedupById(Expanded(palabras, verseApi, synonymApi))
  {
    var acumulados: seq<Verse> := [];
    for i := 0 to |palabras|
      invariant acumulados == Gather(palabras, i, ContributionFn(verseApi, synonymApi))
    {
      var palabra := palabras[i];
      acumulados := acumulados + VersesOf(verseApi(palabra));
      var sinonimos := ObtenerSinonimos(synonymApi(palabra));
      acumulados := AppendLookups(acumulados, sinonimos, verseApi);
      ContributionUnfold(palabra, verseApi, synonymApi);
    }
    versiculos := DedupById(acumulados);
  }

  /** The inner loop: appends the verses found for each synonym, in order. */
  method AppendLookups(acumulados: seq<Verse>, sinonimos: seq<string>, verseApi: string -> VerseResponse)
    returns (r: seq<Verse>)
    ensures r == acumulados + LookupAll(sinonimos, verseApi)
  {
    r := acumulados;
    for j := 0 to |sinonimos|
      invariant r == acumulados + Gather(sinonimos, j, LookupFn(verseApi))
    {
      r := r + VersesOf(verseApi(sinonimos[j]));
    }
  }

  lemma ContributionUnfold(palabra: string, verseApi: string -> VerseResponse,
                            synonymApi: string -> SynonymResponse)
    ensures ContributionFn(verseApi, synonymApi)(palabra)
         == VersesOf(verseApi(palabra)) + Gather(SynonymsOf(synonymApi(palabra)), |SynonymsOf(synonymApi(palabra))|, LookupFn(verseApi))
  {
  }

  /** Gathering over a prefix of the words does not depend on what follows. */
  lemma {:induction false} GatherStable(a: seq<string>, b: seq<string>, n: nat, f: string -> seq<Verse>)
    requires n <= |a|
    ensures Gather(a + b, n, f) == Gather(a, n, f)
  {
    if n > 0 {
      GatherStable(a, b, n - 1, f);
      assert (a + b)[n - 1] == a[n - 1];
    }
  }

  lemma {:induction false} GatherAppend(a: seq<string>, b: seq<string>, k: nat, f: string -> seq<Verse>)
    requires k <= |b|
    ensures Gather(a + b, |a| + k, f) == Gather(a, |a|, f) + Gather(b, k, f)
  {
    if k == 0 {
      GatherStable(a, b, |a|, f);
    } else {
      GatherAppend(a, b, k - 1, f);
      assert (a + b)[|a| + k - 1] == b[k - 1];
    }
  }

  lemma {:induction false} GatherMembership(words: seq<string>, n: nat, f: string -> seq<Verse>, v: Verse)
    requires n <= |words|
    ensures v in Gather(words, n, f) <==> exists i :: 0 <= i < n && v in f(words[i])
  {
    if n > 0 {
      GatherMembership(words, n - 1, f, v);
    }
  }

  /** Expansion distributes over the token sequence: each token's contribution lands in order. */
  lemma ExpandedAppend(a: seq<string>, b: seq<string>, verseApi: string -> VerseResponse,
                       synonymApi: string -> SynonymResponse)
    ensures Expanded(a + b, verseApi, synonymApi)
         == Expanded(a, verseApi, synonymApi) + Expanded(b, verseApi, synonymApi)
  {
    GatherAppend(a, b, |b|, ContributionFn(verseApi, synonymApi));
  }

  /** A token with no verses and no synonyms adds nothing wherever it stands. */
  lemma SilentWord(a: seq<string>, w: string, b: seq<string>, verseApi: string -> VerseResponse,
                   synonymApi: string -> SynonymResponse)
    requires VersesOf(verseApi(w)) == [] && SynonymsOf(synonymApi(w)) == []
    ensures Expanded(a + [w] + b, verseApi, synonymApi) == Expanded(a + b, verseApi, synonymApi)
  {
    var f := ContributionFn(verseApi, synonymApi);
    assert f(w) == [];
    assert Expanded([w], verseApi, synonymApi) == Gather([w], 0, f) + f(w);
    ExpandedAppend(a, [w], verseApi, synonymApi);
    ExpandedAppend(a + [w], b, verseApi, synonymApi);
    ExpandedAppend(a, b, verseApi, synonymApi);
  }

  /** A verse is looked up for a list of words exactly when one of the words finds it. */
  lemma LookupAllMembership(words: seq<string>, verseApi: string -> VerseResponse, v: Verse)
    ensures v in LookupAll(words, verseApi) <==> exists i :: 0 <= i < |words| && v in VersesOf(verseApi(words[i]))
  {
    GatherMembership(words, |words|, LookupFn(verseApi), v);
    assert forall i :: 0 <= i < |words| ==> LookupFn(verseApi)(words[i]) == VersesOf(verseApi(words[i]));
  }

  /**
   * A verse is accumulated exactly when some token finds it, directly or
   * through one of that token's synonyms.
   */
  lemma ExpandedMembership(palabras: seq<string>, verseApi: string -> VerseResponse,
                           synonymApi: string -> SynonymResponse, v: Verse)
    ensures v in Expanded(palabras, verseApi, synonymApi) <==>
            exists i :: 0 <= i < |palabras| && v in Contribution(palabras[i], verseApi, synonymApi)
  {
    var f := ContributionFn(verseApi, synonymApi);
    GatherMembership(palabras, |palabras|, f, v);
    assert forall i :: 0 <= i < |palabras| ==> f(palabras[i]) == Contribution(palabras[i], verseApi, synonymApi);
  }

  /** What one token contributes: its own verses, or those of a synonym the filter kept. */
  lemma ContributionMembership(palabra: string, verseApi: string -> VerseResponse,
                               synonymApi: string -> SynonymResponse, v: Verse)
    ensures v in Contribution(palabra, verseApi, synonymApi) <==>
            v in VersesOf(verseApi(palabra)) ||
            exists s :: s in SynonymsOf(synonymApi(palabra)) && v in VersesOf(verseApi(s))
  {
    var sinonimos := SynonymsOf(synonymApi(palabra));
    LookupAllMembership(sinonimos, verseApi, v);
    if exists s :: s in sinonimos && v in VersesOf(verseApi(s)) {
      var s :| s in sinonimos && v in VersesOf(verseApi(s));
      var i :| 0 <= i < |sinonimos| && sinonimos[i] == s;
    }
  }
}
