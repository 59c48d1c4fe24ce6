# Thought-unit search (unidades_pensamientoDHH), modelled in Dafny

This project models the search behind the `unidades_pensamientoDHH` Django
view. A paragraph is split into tokens. Each token is looked up in a Bible
search service. Each token's synonyms come from a word-embedding service and
are kept only when their similarity is at least 0.05. Every kept synonym is
looked up too. The accumulated verses are de-duplicated by id, the way a
Python dict comprehension does it. The verses' texts are scored against the
paragraph, sorted from the highest score down, and every score reaching the
user's threshold is listed with the text and reference of a verse. The
results view parses that threshold and falls back to 0.05 when parsing fails.

Modules:

- `Wrappers`: the `Option` datatype.
- `Verses`: verse records and the verse service's reply (`buscar_versiculos`).
- `Synonyms`: the synonym service's reply and its filter (`obtener_sinonimos_word2vec`).
- `Dedup`: a model of the insertion-ordered dict built by `{v['id']: v for v in versiculos}`.
- `Expansion`: the accumulation loop (`buscar_versiculos_con_sinonimos`).
- `Ranking`: the sort / filter / `list.index` loop of `buscar_unidades_pensamientoDHH`.
- `Search`: the whole search and the threshold rule of `resultados`.

Both web services are parameters of the model. `verseApi` and `synonymApi`
are functions from a word to the service's reply: a status flag (the HTTP
status is 200 or not) and the decoded payload. The tokeniser's output is the
input `palabras`. The TF-IDF vectoriser with cosine similarity is the
parameter `similarity`. It maps the candidate texts to one score per text, or
to `None` when the vectoriser raises.

Three consequences of the code shape what the model promises:

- Python dicts keep insertion order (since Python 3.7). So the de-duplicated
  verses keep the order in which each id first appeared, and each id holds
  the last verse seen with it.
- `list.index` returns the first position holding a score. So every tied
  score lists the first candidate with that score, and the other tied
  candidates never appear (`Ranking.TiedScoresRepeatFirst`).
- Nothing catches an exception raised by the vectoriser, for instance when
  too few terms pass `min_df=2`. The search then returns no list at all, and
  the model represents that outcome as `Search.VectorizerFailure`.

## Model

| member | source | states |
|---|---|---|
| Verses.VersesOf | PaginaWeb/buscador/unidades_pensamientoDHH/views.py:67-84 | A non-200 reply, or a reply without `data`, yields no verses. Otherwise the verses are the payload's items in order. |
| Verses.Contenidos | PaginaWeb/buscador/unidades_pensamientoDHH/views.py:19 | One text per verse, in order: the i-th text is the i-th verse's `verse`. |
| Verses.Referencias | PaginaWeb/buscador/unidades_pensamientoDHH/views.py:20 | One (book, chapter, number) reference per verse, in order. |
| Synonyms.ObtenerSinonimos | PaginaWeb/buscador/unidades_pensamientoDHH/views.py:87-102 | The loop returns the words of the pairs scoring at least 0.05, in reply order. A non-200 reply yields no synonyms. |
| Synonyms.KeptWordsAppend | PaginaWeb/buscador/unidades_pensamientoDHH/views.py:94-98 | The filter works pair by pair: filtering a concatenation concatenates the filtered parts. |
| Synonyms.KeptWordsMembership | PaginaWeb/buscador/unidades_pensamientoDHH/views.py:94-98 | A word is kept exactly when some pair carries it with a score of at least 0.05. |
| Synonyms.KeptWordsCount | PaginaWeb/buscador/unidades_pensamientoDHH/views.py:94-98 | As many words are kept as there are qualifying pairs; duplicate words are not merged. |
| Synonyms.KeptWordsBoundary | PaginaWeb/buscador/unidades_pensamientoDHH/views.py:97 | The comparison is inclusive: a score of exactly 0.05 is kept, and 0.049999 is dropped. |
| Dedup.ComprehensionFacts | PaginaWeb/buscador/unidades_pensamientoDHH/views.py:64 | The dict built from the verses has exactly their ids as keys. Each key maps to the last verse with that id. The keys follow first appearance. |
| Dedup.DedupById | PaginaWeb/buscador/unidades_pensamientoDHH/views.py:64-65 | The result has distinct ids, and exactly the ids of the input. Each entry is the input's last verse with that id. Entries are ordered by each id's first appearance. |
| Expansion.AppendLookups | PaginaWeb/buscador/unidades_pensamientoDHH/views.py:60-61 | The inner loop appends, in order, the verses found for each synonym. |
| Expansion.BuscarVersiculosConSinonimos | PaginaWeb/buscador/unidades_pensamientoDHH/views.py:50-65 | The loop accumulates, token by token, the token's verses and then its synonyms' verses. It returns that accumulation de-duplicated by id. |
| Expansion.ExpandedAppend | PaginaWeb/buscador/unidades_pensamientoDHH/views.py:55-61 | Accumulating over a concatenation of token sequences concatenates the two accumulations. |
| Expansion.SilentWord | PaginaWeb/buscador/unidades_pensamientoDHH/views.py:55-61 | A token with no verses and no synonyms changes nothing, wherever it stands. |
| Expansion.ExpandedMembership | PaginaWeb/buscador/unidades_pensamientoDHH/views.py:55-61 | A verse is accumulated exactly when some token's contribution contains it. |
| Expansion.ContributionMembership | PaginaWeb/buscador/unidades_pensamientoDHH/views.py:56-61 | A token contributes exactly its own verses and the verses of each synonym the filter kept. |
| Expansion.LookupAllMembership | PaginaWeb/buscador/unidades_pensamientoDHH/views.py:60-61 | A verse is found for a list of synonyms exactly when one of them finds it. |
| Ranking.InsertDesc | PaginaWeb/buscador/unidades_pensamientoDHH/views.py:35 | Inserting a score into a non-increasing list keeps it non-increasing, has the same multiset plus the score, and grows the list by one. |
| Ranking.SortDesc | PaginaWeb/buscador/unidades_pensamientoDHH/views.py:35 | `sorted(..., reverse=True)`: a non-increasing permutation of the scores. |
| Ranking.IndexOf | PaginaWeb/buscador/unidades_pensamientoDHH/views.py:37 | `list.index`: the first position holding the score. |
| Ranking.CountMonotone | PaginaWeb/buscador/unidades_pensamientoDHH/views.py:36 | A higher threshold lets no more scores through. |
| Ranking.EmitLength | PaginaWeb/buscador/unidades_pensamientoDHH/views.py:35-46 | After walking a prefix of the sorted scores, the loop holds one entry per walked score reaching the threshold. |
| Ranking.EmitEntries | PaginaWeb/buscador/unidades_pensamientoDHH/views.py:36-46 | Every entry reaches the threshold, carries one of the scores, and is built from the first candidate holding that score. |
| Ranking.EmitScores | PaginaWeb/buscador/unidades_pensamientoDHH/views.py:35-36 | After walking a prefix of the sorted scores, the listed scores are exactly the walked scores reaching the threshold, in the order walked. |
| Ranking.AtLeastPermutation | PaginaWeb/buscador/unidades_pensamientoDHH/views.py:35-36 | Filtering by the threshold commutes with reordering: sorting first does not change which scores reach the threshold, or how often each occurs. |
| Ranking.EmitOrdered | PaginaWeb/buscador/unidades_pensamientoDHH/views.py:35-46 | Over sorted scores, the entries' scores do not increase, and none is below the last score walked. |
| Ranking.RankedShape | PaginaWeb/buscador/unidades_pensamientoDHH/views.py:34-48 | The listed scores are exactly the scores at or above the threshold, with their multiplicity (equal multisets), so there is one entry per such score. Scores do not increase and are all at least the threshold. Each entry's text and reference are those of the first candidate with its score. |
| Ranking.RankedMonotone | PaginaWeb/buscador/unidades_pensamientoDHH/views.py:35-36 | Raising the threshold never lengthens the ranked list. |
| Ranking.TiedScoresRepeatFirst | PaginaWeb/buscador/unidades_pensamientoDHH/views.py:35-39 | Two candidates with the same score above the threshold list the first candidate twice, and the second not at all. |
| Ranking.Rank | PaginaWeb/buscador/unidades_pensamientoDHH/views.py:34-48 | The loop builds the ranked list. Its scores are exactly the scores reaching the threshold, with their multiplicity, in non-increasing order. |
| Search.UserThreshold | PaginaWeb/buscador/unidades_pensamientoDHH/views.py:112-115 | A threshold that does not parse becomes 0.05; a parsed one is used as given. |
| Search.BuscarUnidadesPensamiento | PaginaWeb/buscador/unidades_pensamientoDHH/views.py:10-48 | The search returns no entries when no candidate verse was found. Otherwise it ranks the de-duplicated candidates by the vectoriser's scores, or fails when the vectoriser raises. |
| Search.Resultados | PaginaWeb/buscador/unidades_pensamientoDHH/views.py:108-116 | The view runs the search with the parsed threshold, or with 0.05 when the parameter does not parse. |
| Search.NothingFoundNothingListed | PaginaWeb/buscador/unidades_pensamientoDHH/views.py:12-16 | When no token finds any verse, directly or through a synonym, the search lists nothing. |
| Search.ListedEntriesWereFound | PaginaWeb/buscador/unidades_pensamientoDHH/views.py:10-46 | Listed entries are in non-increasing score order and reach the threshold. Each one's text and reference belong to a verse that some token found. |
| Search.SearchMonotone | PaginaWeb/buscador/unidades_pensamientoDHH/views.py:35-36 | Raising the threshold never lengthens the result, and does not change whether the search fails. |

## Left out

- HTTP requests, URLs and JSON decoding: each service is a function from a word to its decoded reply. As a result, the same word always gets the same reply.
- A service call that raises is not modelled. In the source, nothing catches `requests.get` failing (a connection error or timeout, views.py:70 and 90), `response.json()` failing on a 200 reply (views.py:72 and 93), or a synonym pair too short or not numeric (`IndexError`/`TypeError` at views.py:95-97). Each of these aborts the whole search. In the model both services are total, and `Search.SearchResult` has no outcome for these failures.
- A malformed payload item (a missing key, a `KeyError`) is not modelled; payload items are already typed records.
- The `print` diagnostics on empty results and non-200 replies are not modelled.
- `word_tokenize` (nltk) is not modelled; its tokens are the input `palabras`.
- TF-IDF vectorisation and cosine similarity are not modelled. They are the parameter `similarity`, which yields one score per text or `None` when scikit-learn raises.
- Scores and the threshold are real numbers: floating-point rounding and NaN are not modelled. `float()` also accepts `"nan"`, `"inf"` and `"-inf"` as thresholds (views.py:113); these have no counterpart in the `Option<real>` input.
- Ranking.SortDesc: specified by its result (a non-increasing permutation), computed as an insertion sort. Python's Timsort produces the same list for these scores.
- The Django layer is not modelled: `index`, the GET/`'q'` check, `strip`, `float()` parsing itself (its outcome is the input `Option<real>`), and choosing between `notfound.html` and `resultados.html`.
