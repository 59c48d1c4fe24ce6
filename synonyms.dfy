/**
 * The synonym client (`obtener_sinonimos_word2vec`): the word-vector service
 * answers with (word, score) pairs, and only the words scoring at least
 * MinSynonymScore are kept, in the order the service gave them.
 */
module Synonyms {

  /** One pair of the service's answer: a candidate word and its similarity score. */
  datatype SynonymCandidate = SynonymCandidate(word: string, score: real)

  /** The service's reply: whether the status was 200, and the decoded pairs. */
  datatype SynonymResponse = SynonymResponse(statusOk: bool, datos: seq<SynonymCandidate>)

  /** The fixed minimum score a candidate needs to count as a synonym. */
  const MinSynonymScore: real := 0.05

  predicate Qualifies(c: SynonymCandidate) {
    c.score >= MinSynonymScore
  }

  /** The words of the qualifying pairs, in the order of `datos`. */
  function KeptWords(datos: seq<SynonymCandidate>): seq<string>
  {
    if datos == [] then []
    else
      var last := datos[|datos| - 1];
      KeptWords(datos[..|datos| - 1]) + (if Qualifies(last) then [last.word] else [])
  }

  /** What the client returns for a reply: nothing when the status was not 200. */
  function SynonymsOf(response: SynonymResponse): seq<string>
  {
    if response.statusOk then KeptWords(response.datos) else []
  }

  /** The client's loop: appends the word of every pair whose score reaches the minimum. */
  method ObtenerSinonimos(response: SynonymResponse) returns (sinonimos: seq<string>)
    ensures sinonimos == SynonymsOf(response)
    ensures !response.statusOk ==> sinonimos == []
  {
    sinonimos := [];
    if response.statusOk {
      var datos := response.datos;
      for i := 0 to |datos|
        invariant sinonimos == KeptWords(datos[..i])
      {
        var resultado := datos[i];
        if resultado.score >= MinSynonymScore {
          sinonimos := sinonimos + [resultado.word];
        }
        assert datos[..i + 1][..i] == datos[..i];
      }
      assert datos[..|datos|] == datos;
    }
  }

  /** Filtering distributes over concatenation: the kept words keep their relative order. */
  lemma {:induction false} KeptWordsAppend(a: seq<SynonymCandidate>, b: seq<SynonymCandidate>)
    ensures KeptWords(a + b) == KeptWords(a) + KeptWords(b)
    decreases |b|
  {
    if b == [] {
      assert a + b == a;
    } else {
      var n := |b| - 1;
      assert (a + b)[..|a + b| - 1] == a + b[..n];
      assert (a + b)[|a + b| - 1] == b[n];
      KeptWordsAppend(a, b[..n]);
    }
  }

  /** A word is kept exactly when some pair carrying it scores at least the minimum. */
  lemma {:induction false} KeptWordsMembership(datos: seq<SynonymCandidate>, w: string)
    ensures w in KeptWords(datos) <==>
            exists i :: 0 <= i < |datos| && datos[i].word == w && datos[i].score >= MinSynonymScore
    decreases |datos|
  {
    if datos != [] {
      var n := |datos| - 1;
      KeptWordsMembership(datos[..n], w);
      if w in KeptWords(datos[..n]) {
        var i :| 0 <= i < n && datos[..n][i].word == w && datos[..n][i].score >= MinSynonymScore;
        assert datos[i] == datos[..n][i];
      }
      if exists i :: 0 <= i < |datos| && datos[i].word == w && datos[i].score >= MinSynonymScore {
        var i :| 0 <= i < |datos| && datos[i].word == w && datos[i].score >= MinSynonymScore;
        if i < n {
          assert datos[..n][i] == datos[i];
        }
      }
    }
  }

  /** The number of kept words is the number of qualifying pairs. */
  lemma {:induction false} KeptWordsCount(datos: seq<SynonymCandidate>)
    ensures |KeptWords(datos)| == |set i | 0 <= i < |datos| && Qualifies(datos[i])|
    decreases |datos|
  {
    if datos != [] {
      var n := |datos| - 1;
      KeptWordsCount(datos[..n]);
      var before := set i | 0 <= i < n && Qualifies(datos[..n][i]);
      var after := set i | 0 <= i < |datos| && Qualifies(datos[i]);
      if Qualifies(datos[n]) {
        assert after == before + {n};
      } else {
        assert after == before;
      }
    }
  }

  /** The boundary: a score of exactly 0.05 is kept, 0.049999 is dropped. */
  lemma KeptWordsBoundary(w: string)
    ensures KeptWords([SynonymCandidate(w, 0.05)]) == [w]
    ensures KeptWords([SynonymCandidate(w, 0.049999)]) == []
  {
    assert [SynonymCandidate(w, 0.05)][..0] == [];
    assert [SynonymCandidate(w, 0.049999)][..0] == [];
  }
}
