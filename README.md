# rt-vote: a Dafny model of the voting routes

rt-vote runs a neighbourhood (RT) head election. Residents are rows of the
`warga` table: `id`, `no_kk` (household number), `nama`, `nomor_rumah` (house
number), `blok` (block), `is_calon` (is a candidate) and `sudah_memilih` (has
voted). Ballots are rows of the append-only `pilihan` table:
`(pemilih_id, calon_id)`. Six server routes hold the voting rules, and this
project models those six routes:

- `POST /api/auth` looks up a voter by household number, house number and block.
- `GET /api/blok` and `GET /api/nomor-rumah` fill the cascading pick lists of the login form.
- `GET /api/calon` searches the candidates.
- `POST /api/vote` records a ballot.
- `GET /api/results` counts the ballots and returns the top three candidates.

The store is a value `Db(warga, pilihan)` of two sequences (module `Store`).
Each store query is a filter over them. The failure a query can report is an
extra `Option<string>` parameter, so every error branch of the routes is
modelled. Each route is written in the form its code has:

- Auth, Calon, Blok and NomorRumah build their answer from one query, so they
  are functions on values.
- The ballot box changes the store in two steps. It is the class
  `Vote.BallotBox`, with `warga` and `pilihan` as fields. Its `Cast` method is
  tied to the value-level `Vote.CastOn`, and the lemmas are stated about
  `CastOn`.
- The tally's two `forEach` loops fill dictionaries in place. They are the
  methods `Results.BuildCandidateMap` and `Results.CountVotes`, each proved
  equal to a specification function. `Results.Tally` runs the whole route and
  returns `Ok(TallyOf(db))`. The ranking lemmas are stated about `TallyOf`.

Shared pieces:

- `Dedup.Unique` is the `[...new Set(xs)]` idiom. It keeps each value once, at
  its first occurrence.
- `StringOrder.Sort` stands for `.order(column, { ascending: true })`. It sorts
  by a fixed lexicographic order on characters.
- `Text.ILikeContains` stands for `.ilike('nama', '%q%')`. It tests for a
  substring after ASCII lower-casing.

Row ids are integers (`Store.Id` is `nat`). Tie order in the tally follows
from that. The route reads the vote-count object with `Object.entries`, which
lists integer-like keys in ascending numeric order, and then runs a stable
sort by votes. Candidates with equal counts therefore come out by ascending
id. `Results.AscendingIds` models that key order.

The vote route checks neither `sudah_memilih` nor `is_calon` before it
inserts the ballot, so only the store can refuse a second ballot.
`Vote.NoGuardAgainstSecondBallot` states that two accepted calls by the same
voter leave two ballots.

## Model

| member | source | states |
|---|---|---|
| Store.Occurrences | app/api/results/route.ts:38-51 | The number of times a value occurs in a sequence is at most the length, and is zero exactly when the value is absent. |
| Store.OccurrencesAppend | app/api/results/route.ts:38-51 | Occurrences in a concatenation add up. |
| Dedup.Unique | app/api/blok/route.ts:16 | `[...new Set(xs)]` has no duplicates, only values of `xs`, every value of `xs`, and is no longer than `xs`. |
| Dedup.UniqueHasSameValues | app/api/blok/route.ts:16 | A value is in the de-duplicated list exactly when it is in the input. |
| Dedup.FirstIndex | app/api/blok/route.ts:16 | The position of the first occurrence of a value that occurs. |
| Dedup.UniqueKeepsFirstOccurrenceOrder | app/api/blok/route.ts:16 | The de-duplicated list keeps the values in the order of their first occurrences. |
| StringOrder.LeTotal | app/api/blok/route.ts:9 | The string order relates every two strings. |
| StringOrder.LeTransitive | app/api/blok/route.ts:9 | The string order is transitive. |
| StringOrder.LeAntisymmetric | app/api/blok/route.ts:9 | Two strings ordered both ways are equal. |
| StringOrder.Sort | app/api/blok/route.ts:9 | The ascending `.order` result is ascending and is a permutation of the column. |
| StringOrder.UniqueOfAscending | app/api/blok/route.ts:9-16 | De-duplicating an ascending column gives a strictly ascending list. |
| Text.Lower | app/api/calon/route.ts:14 | Lower-casing keeps the length and folds each character on its own. |
| Text.ContainsWindow | app/api/calon/route.ts:14 | `Contains(s, p)` holds exactly when some window of `s` equals `p`. |
| Text.ILikeContainsWindow | app/api/calon/route.ts:13-15 | `ilike '%q%'` holds exactly when `q` agrees, ignoring ASCII case, with some window of the name. |
| Auth.Matches | app/api/auth/route.ts:8-13 | The three `.eq` filters keep exactly the rows equal to the key on all three fields. |
| Auth.MatchesEmpty | app/api/auth/route.ts:8-18 | The filters keep nothing exactly when no row matches the key. |
| Auth.MatchesOfUnique | app/api/auth/route.ts:8-14 | When one row alone matches, the filters keep that row only. |
| Auth.SingleIffUnique | app/api/auth/route.ts:14 | `.single()` finds one row exactly when one row alone matches the key. |
| Auth.Authenticate | app/api/auth/route.ts:8-31 | Forbidden or ok exactly when the store succeeds and one row alone matches. Every error says "Data tidak ditemukan.". A unique voted row gives forbidden with no voter fields. A unique unvoted row gives ok with id, name, household number, house number and block copied from that row. The store is only read. |
| Auth.NoMatchIsError | app/api/auth/route.ts:16-18 | A key no row matches gives the not-found error. |
| Auth.AmbiguousIsError | app/api/auth/route.ts:14-18 | Two rows sharing the key give the not-found error rather than either row. |
| Calon.Label | app/api/calon/route.ts:25 | The label's length is the three fields' lengths plus two separators. |
| Calon.Selected | app/api/calon/route.ts:8-17 | The query returns exactly the candidate rows that pass the optional name filter. |
| Calon.SelectedAppend | app/api/calon/route.ts:8-17 | The query keeps store order: selecting from two stretches of rows concatenates the two selections. |
| Calon.NoQueryListsAllCandidates | app/api/calon/route.ts:11-13 | Without a query, or with an empty one, every candidate row is listed and no other row. |
| Calon.QueryMatchesIgnoringCase | app/api/calon/route.ts:13-15 | With a non-empty query, a row is listed exactly when it is a candidate whose name contains the query, ignoring ASCII case. |
| Calon.Search | app/api/calon/route.ts:8-28 | A store error is passed on. Otherwise there is one item per selected row, in the same order, with the row's id and the display `nama / nomor_rumah / blok`. |
| Calon.SearchListsOnlyCandidates | app/api/calon/route.ts:11-26 | Every listed item is the id of a candidate row. |
| Calon.IndexOf | app/api/calon/route.ts:25 | Part of reading a label back, a round-trip the model adds to the label format: the first position of a character, or the length when it is absent. |
| Calon.SplitAtSeparatorInverse | app/api/calon/route.ts:25 | Part of reading a label back, a round-trip the model adds: a string without '/' can be split back off the front of `a / b`. |
| Calon.IndexOfAfter | app/api/calon/route.ts:25 | Part of reading a label back, a round-trip the model adds: the first '/' of `a + "/" + b` is right after `a` when `a` has none. |
| Calon.ParseLabelInverse | app/api/calon/route.ts:25 | When name and house number contain no '/', the label can be read back into its three fields, so different candidates get different labels. |
| Blok.DistinctAscending | app/api/blok/route.ts:9-16 | The de-duplicated ascending column is strictly ascending and holds exactly the column's values. |
| Blok.ListBlok | app/api/blok/route.ts:6-18 | A store error gives status 500 with its message. Otherwise the values are strictly ascending and are exactly the `blok` values of all rows. |
| Blok.ListBlokHasNoDuplicates | app/api/blok/route.ts:16 | The block list has no duplicate values. |
| NomorRumah.NomorRumahInBlok | app/api/nomor-rumah/route.ts:13-16 | The selected column holds exactly the house numbers of the rows in the block. |
| NomorRumah.ListNomorRumah | app/api/nomor-rumah/route.ts:8-26 | A missing or empty block gives 400 "Blok parameter is required" whatever the store would report. Otherwise a store error gives 500. Otherwise the values are strictly ascending and are exactly the house numbers of the rows in that block. |
| Vote.CastOn | app/api/vote/route.ts:4-15 | The response is ok exactly when the insert succeeds. A failed insert leaves the store as it was and returns the store's message. A successful one appends the ballot `(pemilih_id, calon_id)` and returns the thank-you message. Rows keep their number and every field but the flag. A row's flag is true afterwards exactly when it was true before, or when both steps succeeded and the row has the voter's id. |
| Vote.MarkVoted | app/api/vote/route.ts:10 | The update sets the flag on every row with the voter's id and leaves every other row as it was. |
| Vote.BallotBox.constructor | app/api/vote/route.ts:4 | The box starts with the store's rows and ballots. |
| Vote.BallotBox.Cast | app/api/vote/route.ts:4-15 | A failed insert returns its error and changes nothing. Otherwise the ballot is appended, the response is the thank-you message, and the voter's flag is set unless the update failed. The new state and response are those of `CastOn`. |
| Vote.RejectedInsertChangesNothing | app/api/vote/route.ts:7-8 | A rejected insert leaves the store unchanged and reports the store's message. |
| Vote.AcceptedInsertAppendsOneBallot | app/api/vote/route.ts:7-15 | An accepted insert appends exactly the ballot `(pemilih_id, calon_id)`, keeps the earlier ballots, adds one to the voter's ballot count, and answers ok whatever the flag update did. |
| Vote.FlagOnlyRises | app/api/vote/route.ts:10 | The flag only moves to true, only on the voter's rows, and no other field or row changes. |
| Vote.NoGuardAgainstSecondBallot | app/api/vote/route.ts:5-10 | Two accepted calls by the same voter both answer ok and leave two more ballots, whatever the flag and the candidates are. |
| Vote.VotedVoterIsForbidden | app/api/vote/route.ts:10 | After an accepted vote whose flag update took effect, logging in with the voter's key gives forbidden. |
| Results.CandidateRows | app/api/results/route.ts:19-23 | The second query returns exactly the details of candidate rows whose id was voted for. |
| Results.CandidateMap | app/api/results/route.ts:30-33 | The candidate dictionary's keys are exactly the rows' ids, and each key maps to a row with that id. |
| Results.BuildCandidateMap | app/api/results/route.ts:30-33 | The `forEach` loop builds exactly the candidate dictionary. |
| Results.Counted | app/api/results/route.ts:38-42 | The counted ballots are exactly the voted ids that are keys of the candidate dictionary. |
| Results.CountsMatchIsCountsFor | app/api/results/route.ts:36-51 | A dictionary whose keys and values agree with the counts is the count dictionary. |
| Results.CountBallot | app/api/results/route.ts:39-50 | One turn of the loop. A ballot for a non-candidate changes nothing. A first ballot for a candidate adds its key with count 1 and its details, and records the key. A later ballot adds one to its count. Every other key keeps its value. |
| Results.CountVotes | app/api/results/route.ts:36-51 | The counting loop ends with each candidate with a ballot mapped to its number of ballots and its details, and no other key. It also returns the keys in the order they were inserted. |
| Results.InsertId | app/api/results/route.ts:54 | Inserting a new id into an increasing list keeps it increasing and adds exactly that id. |
| Results.AscendingIds | app/api/results/route.ts:54 | `Object.entries` lists the integer keys in strictly increasing order, each key once. |
| Results.InsertRanked | app/api/results/route.ts:62 | Inserting into a ranked list keeps it ranked and adds exactly that entry. |
| Results.SortRanked | app/api/results/route.ts:62 | The stable sort orders by votes descending, then by position in the key list, and is a permutation of its input. |
| Results.Top | app/api/results/route.ts:63 | `.slice(0, 3)` keeps the first `min(n, 3)` entries, and keeps them ordered by votes. |
| Results.TopLeavesOut | app/api/results/route.ts:63 | An entry the cut leaves out comes after three kept entries. |
| Results.TallyOf | app/api/results/route.ts:17-63 | The data of a successful response has at most three entries, with votes never increasing. |
| Results.Tally | app/api/results/route.ts:4-68 | An error from the ballot query, or else from the candidate query, gives that error. Otherwise the response is ok with the ranked top three. |
| Results.KeysAreCounted | app/api/results/route.ts:43-54 | The listed keys are exactly the keys of the vote-count dictionary. |
| Results.CandidatesOfFacts | app/api/results/route.ts:19-33 | A voted id is in the candidate dictionary exactly when it belongs to a candidate row, and its details come from such a row. |
| Results.RankingEntry | app/api/results/route.ts:38-62 | Each ranked entry's votes are its number of ballots, at least one, and its fields come from its candidate row. |
| Results.RankingOrder | app/api/results/route.ts:54-62 | Ranked entries never increase in votes and have distinct ids. On a tie the smaller id comes first. |
| Results.RankingNonIncreasing | app/api/results/route.ts:62 | Votes never increase along the ranking. |
| Results.RankingComplete | app/api/results/route.ts:38-62 | Every candidate with a ballot is ranked. |
| Results.OrderPosition | app/api/results/route.ts:43-49 | Every candidate with a ballot is a key of the vote-count dictionary. |
| Results.TallyLength | app/api/results/route.ts:54-63 | The response has `min(n, 3)` entries, where n is the number of candidates with a ballot. |
| Results.TallyEntry | app/api/results/route.ts:38-63 | Each returned entry's votes equal its number of ballots, at least one. Its name, block and house number are copied from its candidate row. |
| Results.TallyOrder | app/api/results/route.ts:54-63 | Returned entries never increase in votes and have pairwise distinct ids. On a tie the smaller id comes first. |
| Results.TallyIgnoresNonCandidates | app/api/results/route.ts:19-42 | An id that is not a candidate row never appears in the response. |
| Results.TallyLeftOutHaveNoMoreVotes | app/api/results/route.ts:54-63 | A candidate with ballots that is left out means three entries were returned. It has no more votes than the third, and on a tie its id is larger than the third's. |
| Results.TallyEmptyWhenNoBallots | app/api/results/route.ts:17-68 | With no ballots the data is empty. The response is then ok, not an error, by `Tally`. |
| Results.OrderOfSingleBallot | app/api/results/route.ts:38-54 | One ballot for a candidate gives that candidate as the only key. |
| Results.FirstVoteIsCounted | app/api/results/route.ts:38-63 | In a store with no ballots, one accepted vote for a candidate makes the tally that candidate alone, with one vote. |

## Left out

- The `catch` branches (app/api/results/route.ts:70-72, app/api/blok/route.ts:19-21, app/api/nomor-rumah/route.ts:27-29) answer a thrown exception. Exceptions are not modelled; store failures reported as `error` values are.
- Request parsing (`req.json()`, `searchParams.get`) is not modelled. The parsed fields are parameters; a missing query parameter is `None`.
- The supabase client, app/lib/supabaseClient.ts, is not part of this model. Its queries are filters over the two sequences.
- `.ilike` treats `%` and `_` inside the query as wildcards. The model treats them literally, and it folds ASCII letters only.
- `.order` uses the database's collation. The model uses a fixed lexicographic order on characters.
- `Object.entries` lists only array-index keys (below 2^32 - 1) in numeric order; larger ids would come after them, in insertion order. The model treats every id as an array index.
- Vote counts are unbounded naturals. JavaScript numbers lose precision above 2^53 ballots.
- The two store calls of the vote route are modelled one after the other. Concurrent requests interleaving between the insert and the update are not modelled.
- Constraints of the database schema, such as a uniqueness constraint on `pilihan`, are not known here. A store rejection of the insert is the `insertError` parameter.
- The failure of the flag update is ignored by the route. The model keeps the rows unchanged in that case.
- HTTP plumbing: the auth, vote and results routes always answer 200 with a `status` field. The calon route answers 200 with the bare list on success and with a `status` field on error. The model gives these answers as datatype variants. The pick-list routes carry their explicit 400 and 500 codes.
- UI pages and components (app/page.tsx, app/vote/page.tsx, app/login/page.tsx, app/success/page.tsx, app/layout.tsx, components/auth/login-form.tsx), app/lib/cookies.ts and the files under `__tests__/` are not part of this model.
