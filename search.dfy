/**
 * The whole search (`buscar_unidades_pensamientoDHH`) and the threshold rule
 * of the results view (`resultados`). The tokeniser's output, the two web
 * services and the TF-IDF vectoriser with cosine similarity are parameters:
 * `similarity` maps the candidate texts to one score per text, or to None
 * when the vectoriser raises.
 */
module Search {

  import opened Wrappers
  import opened Verses
  import opened Synonyms
  import opened Dedup
  import opened Expansion
  import opened Ranking

  /** How a search ends: the ranked entries, or the vectoriser raising. */
  datatype SearchResult = Results(unidades: seq<SimilarUnit>) | VectorizerFailure

  /** The threshold used when the request's threshold does not parse as a number. */
  const DefaultThreshold: real := 0.05

  /** The threshold `resultados` passes on: the parsed parameter, or else the default. */
  function UserThreshold(parsed: Option<real>): (t: real)
    ensures parsed.None? ==> t == DefaultThreshold
    ensures parsed.Some? ==> t == parsed.value
  {
    match parsed
    case Some(v) => v
    case None => DefaultThreshold
  }

  /** A successful vectoriser run yields one score per candidate text. */
  ghost predicate ScoresEachText(similarity: seq<string> -> Option<seq<real>>)
  {
    forall cs :: similarity(cs).Some? ==> |similarity(cs).value| == |cs|
  }

  /** The candidates the search ranks: the expanded verses, one per id. */
  function Candidates(palabras: seq<string>, verseApi: string -> VerseResponse,
                      synonymApi: string -> SynonymResponse): seq<Verse>
  {
    DedupById(Expanded(palabras, verseApi, synonymApi))
  }

  /** What the search returns for a token sequence, the services and a threshold. */
  function SearchOutcome(palabras: seq<string>, verseApi: string -> VerseResponse,
                         synonymApi: string -> SynonymResponse,
                         similarity: seq<string> -> Option<seq<real>>, umbral: real): SearchResult
    requires ScoresEachText(similarity)
  {
    var versiculos := Candidates(palabras, verseApi, synonymApi);
    if versiculos == [] then Results([])
    else
      match similarity(Contenidos(versiculos))
      case None => VectorizerFailure
      case Some(similitudes) =>
        Results(Ranked(Contenidos(versiculos), Referencias(versiculos), similitudes, umbral))
  }

  /**
   * The search: gathers the candidates, returns no entries when there are
   * none (without calling the vectoriser), and otherwise ranks them by the
   * vectoriser's scores.
   */
  method BuscarUnidadesPensamiento(palabras: seq<string>, verseApi: string -> VerseResponse,
                                   synonymApi: string -> SynonymResponse,
                                   similarity: seq<string> -> Option<seq<real>>, umbral: real)
    returns (outcome: SearchResult)
    requires ScoresEachText(similarity)
    ensures outcome == SearchOutcome(palabras, verseApi, synonymApi, similarity, umbral)
    ensures Candidates(palabras, verseApi, synonymApi) == [] ==> outcome == Results([])
  {
    var versiculos := BuscarVersiculosConSinonimos(palabras, verseApi, synonymApi);
    if versiculos == [] {
      return Results([]);
    }
    var contenidos := Contenidos(versiculos);
    var referencias := Referencias(versiculos);
    match similarity(contenidos) {
      case None =>
        outcome := VectorizerFailure;
      case Some(similitudes) =>
        var unidades := Rank(contenidos, referencias, similitudes, umbral);
        outcome := Results(unidades);
    }
  }

  /** `resultados`: the search run with the parsed threshold, or with 0.05 when it does not parse. */
  method Resultados(palabras: seq<string>, parsedThreshold: Option<real>, verseApi: string -> VerseResponse,
                    synonymApi: string -> SynonymResponse, similarity: seq<string> -> Option<seq<real>>)
    returns (outcome: SearchResult)
    requires ScoresEachText(similarity)
    ensures parsedThreshold.None? ==>
              outcome == SearchOutcome(palabras, verseApi, synonymApi, similarity, DefaultThreshold)
    ensures parsedThreshold.Some? ==>
              outcome == SearchOutcome(palabras, verseApi, synonymApi, similarity, parsedThreshold.value)
  {
    var similitudUsuario := UserThreshold(parsedThreshold);
    outcome := BuscarUnidadesPensamiento(palabras, verseApi, synonymApi, similarity, similitudUsuario);
  }

  /** When no token finds any verse, directly or through a synonym, the search lists nothing. */
  lemma NothingFoundNothingListed(palabras: seq<string>, verseApi: string -> VerseResponse,
                                  synonymApi: string -> SynonymResponse,
                                  similarity: seq<string> -> Option<seq<real>>, umbral: real)
    requires ScoresEachText(similarity)
    requires forall i :: 0 <= i < |palabras| ==> Contribution(palabras[i], verseApi, synonymApi) == []
    ensures SearchOutcome(palabras, verseApi, synonymApi, similarity, umbral) == Results([])
  {
    var acc := Expanded(palabras, verseApi, synonymApi);
    if acc != [] {
      ExpandedMembership(palabras, verseApi, synonymApi, acc[0]);
    }
  }

  /**
   * Every listed entry is a verse some token found: its score reaches the
   * threshold, the scores do not increase down the list, and its text and
   * reference are those of an accumulated verse.
   */
  lemma ListedEntriesWereFound(palabras: seq<string>, verseApi: string -> VerseResponse,
                               synonymApi: string -> SynonymResponse,
                               similarity: seq<string> -> Option<seq<real>>, umbral: real)
    requires ScoresEachText(similarity)
    ensures var outcome := SearchOutcome(palabras, verseApi, synonymApi, similarity, umbral);
            outcome.Results? ==>
              && (forall i, j :: 0 <= i < j < |outcome.unidades| ==>
                    outcome.unidades[i].similitud >= outcome.unidades[j].similitud)
              && (forall i :: 0 <= i < |outcome.unidades| ==> outcome.unidades[i].similitud >= umbral)
              && (forall i :: 0 <= i < |outcome.unidades| ==>
                    exists v :: v in Expanded(palabras, verseApi, synonymApi)
                      && outcome.unidades[i].contenido == v.verse && outcome.unidades[i].libro == v.book
                      && outcome.unidades[i].capitulo == v.chapter && outcome.unidades[i].versiculo == v.number)
  {
    var vs := Expanded(palabras, verseApi, synonymApi);
    var versiculos := Candidates(palabras, verseApi, synonymApi);
    var outcome := SearchOutcome(palabras, verseApi, synonymApi, similarity, umbral);
    if versiculos != [] && similarity(Contenidos(versiculos)).Some? {
      var similitudes := similarity(Contenidos(versiculos)).value;
      var contenidos, referencias := Contenidos(versiculos), Referencias(versiculos);
      RankedShape(contenidos, referencias, similitudes, umbral);
      var r := outcome.unidades;
      forall i | 0 <= i < |r|
        ensures exists v :: v in vs && r[i].contenido == v.verse && r[i].libro == v.book
                  && r[i].capitulo == v.chapter && r[i].versiculo == v.number
      {
        var k := IndexOf(similitudes, r[i].similitud);
        var v := versiculos[k];
        assert v == vs[LastIndex(vs, v.id)];
        assert v in vs;
      }
    }
  }

  /** Raising the threshold never lengthens the result list, and does not change whether the search fails. */
  lemma SearchMonotone(palabras: seq<string>, verseApi: string -> VerseResponse,
                       synonymApi: string -> SynonymResponse,
                       similarity: seq<string> -> Option<seq<real>>, t1: real, t2: real)
    requires ScoresEachText(similarity)
    requires t1 <= t2
    ensures var low := SearchOutcome(palabras, verseApi, synonymApi, similarity, t1);
            var high := SearchOutcome(palabras, verseApi, synonymApi, similarity, t2);
            && (low.Results? <==> high.Results?)
            && (low.Results? ==> |high.unidades| <= |low.unidades|)
  {
    var versiculos := Candidates(palabras, verseApi, synonymApi);
    if versiculos != [] && similarity(Contenidos(versiculos)).Some? {
      RankedMonotone(Contenidos(versiculos), Referencias(versiculos),
                     similarity(Contenidos(versiculos)).value, t1, t2);
    }
  }
}
