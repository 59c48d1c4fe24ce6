/**
 * The records the search handles: verses as the verse-search service delivers
 * them, and the ranked entries the search hands to the results page.
 */
module Verses {

  import opened Wrappers

  /** One verse record of the service: its text, book, chapter, verse number and id. */
  datatype Verse = Verse(verse: string, book: string, chapter: int, number: int, id: int)

  /** Where a verse sits: (book, chapter, number). */
  datatype Reference = Reference(book: string, chapter: int, number: int)

  /** One entry of the ranked result list, with the keys the results page reads. */
  datatype SimilarUnit = SimilarUnit(similitud: real, contenido: string, libro: string, capitulo: int, versiculo: int)

  /**
   * The verse-search service's reply to one query: whether the status was 200,
   * and the `data` list of the JSON body when the body has one.
   */
  datatype VerseResponse = VerseResponse(statusOk: bool, data: Option<seq<Verse>>)

  /**
   * `buscar_versiculos`: the verses of a reply. A failed status contributes no
   * verses, and neither does a body without a `data` list.
   */
  function VersesOf(response: VerseResponse): (vs: seq<Verse>)
    ensures !response.statusOk || response.data.None? ==> vs == []
    ensures response.statusOk && response.data.Some? ==> vs == response.data.value
  {
    if response.statusOk then
      match response.data
      case Some(items) => items
      case None => []
    else []
  }

  /** The verse texts, index for index with the candidates. */
  function Contenidos(vs: seq<Verse>): (cs: seq<string>)
    ensures |cs| == |vs|
    ensures forall i :: 0 <= i < |vs| ==> cs[i] == vs[i].verse
  {
    seq(|vs|, i requires 0 <= i < |vs| => vs[i].verse)
  }

  /** The (book, chapter, number) references, index for index with the candidates. */
  function Referencias(vs: seq<Verse>): (rs: seq<Reference>)
    ensures |rs| == |vs|
    ensures forall i :: 0 <= i < |vs| ==> rs[i] == Reference(vs[i].book, vs[i].chapter, vs[i].number)
  {
    seq(|vs|, i requires 0 <= i < |vs| => Reference(vs[i].book, vs[i].chapter, vs[i].number))
  }
}
