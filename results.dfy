/** Live results (`GET /api/results`): count the ballots of every candidate,
    join each count with the candidate's row, rank by count and keep the top
    three. Ballots whose `calon_id` is not a candidate row are not counted.

    The route's vote-count dictionary is a JavaScript object keyed by
    candidate id. The ids are integers, so every key is an array index, and
    `Object.entries` lists such keys in ascending numeric order. The sort
    that follows is stable, so candidates with equal counts are listed by
    ascending id. */
module Results {
  import opened Store
  import opened Dedup
  import Vote

  const TopN := 3

  /** The candidate columns the second query selects. */
  datatype Details = Details(id: Id, nama: string, blok: string, nomorRumah: string)

  /** One value of the vote-count dictionary. */
  datatype VoteCount = VoteCount(count: nat, details: Details)

  /** One entry of the response. */
  datatype Standing = Standing(id: Id, nama: string, blok: string, nomorRumah: string, votes: nat)

  datatype ResultsResponse = Ok(data: seq<Standing>) | Error(message: string)

  function DetailsOf(w: Warga): Details
  {
    Details(w.id, w.nama, w.blok, w.nomorRumah)
  }

  /** `.from('pilihan').select('calon_id')`: the voted ids, one per ballot. */
  function CalonIds(pilihan: seq<Pilihan>): (r: seq<Id>)
    ensures |r| == |pilihan| && forall i :: 0 <= i < |pilihan| ==> r[i] == pilihan[i].calonId
  {
    seq(|pilihan|, i requires 0 <= i < |pilihan| => pilihan[i].calonId)
  }

  /** `.in('id', ids).eq('is_calon', true)`: the candidate rows among the
      voted ids, in store order. */
  function CandidateRows(warga: seq<Warga>, ids: seq<Id>): (r: seq<Details>)
    ensures forall d :: d in r <==>
      exists i :: 0 <= i < |warga| && warga[i].id in ids && warga[i].isCalon && d == DetailsOf(warga[i])
  {
    if |warga| == 0 then []
    else
      var rest := CandidateRows(warga[1..], ids);
      assert forall i :: 0 < i < |warga| ==> warga[i] == warga[1..][i - 1];
      assert forall d :: d in rest ==>
        exists i :: 0 <= i < |warga| && warga[i].id in ids && warga[i].isCalon && d == DetailsOf(warga[i]) by {
        forall d | d in rest ensures
          exists i :: 0 <= i < |warga| && warga[i].id in ids && warga[i].isCalon && d == DetailsOf(warga[i]) {
          var k :| 0 <= k < |warga[1..]| && warga[1..][k].id in ids && warga[1..][k].isCalon &&
                   d == DetailsOf(warga[1..][k]);
          assert warga[k + 1] == warga[1..][k];
        }
      }
      (if warga[0].id in ids && warga[0].isCalon then [DetailsOf(warga[0])] else []) + rest
  }

  /** The candidate dictionary after the `forEach` over the rows: each row
      is stored under its id, a later row overwriting an earlier one. */
  function CandidateMap(cs: seq<Details>): (m: map<Id, Details>)
    ensures forall id :: id in m <==> exists k :: 0 <= k < |cs| && cs[k].id == id
    ensures forall id :: id in m ==> m[id] in cs && m[id].id == id
  {
    if |cs| == 0 then map[]
    else
      var init := cs[..|cs| - 1];
      var m := CandidateMap(init);
      assert forall k :: 0 <= k < |init| ==> init[k] == cs[k];
      m[cs[|cs| - 1].id := cs[|cs| - 1]]
  }

  /** Fills the candidate dictionary row by row. */
  method BuildCandidateMap(cs: seq<Details>) returns (m: map<Id, Details>)
    ensures m == CandidateMap(cs)
  {
    m := map[];
    for i := 0 to |cs|
      invariant m == CandidateMap(cs[..i])
    {
      assert cs[..i + 1][..i] == cs[..i];
      m := m[cs[i].id := cs[i]];
    }
    assert cs[..|cs|] == cs;
  }

  /** The voted ids that are keys of the candidate dictionary, in ballot
      order: the ballots the counting loop counts. */
  function Counted(votes: seq<Id>, cmap: map<Id, Details>): (r: seq<Id>)
    ensures forall x :: x in r <==> x in votes && x in cmap
  {
    if |votes| == 0 then []
    else
      var init, last := votes[..|votes| - 1], votes[|votes| - 1];
      assert votes == init + [last];
      Counted(init, cmap) + (if last in cmap then [last] else [])
  }

  /** The vote-count dictionary the counting loop should end with: every
      candidate with at least one ballot, with its count and its details. */
  function CountsFor(votes: seq<Id>, cmap: map<Id, Details>): map<Id, VoteCount>
  {
    map c | c in cmap && Occurrences(votes, c) > 0 :: VoteCount(Occurrences(votes, c), cmap[c])
  }

  /** `counts` holds, for every candidate with a ballot in `votes` and no
      other key, that candidate's count and details. */
  ghost predicate CountsMatch(counts: map<Id, VoteCount>, votes: seq<Id>, cmap: map<Id, Details>)
  {
    (forall c :: c in counts <==> c in cmap && Occurrences(votes, c) > 0) &&
    (forall c :: c in counts ==> counts[c] == VoteCount(Occurrences(votes, c), cmap[c]))
  }

  lemma {:induction false} CountsMatchIsCountsFor(counts: map<Id, VoteCount>, votes: seq<Id>, cmap: map<Id, Details>)
    requires CountsMatch(counts, votes, cmap)
    ensures counts == CountsFor(votes, cmap)
  {
    var spec := CountsFor(votes, cmap);
    assert counts.Keys == spec.Keys;
  }

  lemma {:induction false} OccurrencesSnoc(votes: seq<Id>, c: Id, x: Id)
    ensures Occurrences(votes + [c], x) == Occurrences(votes, x) + (if x == c then 1 else 0)
  {
    assert (votes + [c])[..|votes|] == votes;
  }

  /** One turn of the counting loop keeps `CountsMatch`. */
  lemma {:induction false} CountStep(counts: map<Id, VoteCount>, counts': map<Id, VoteCount>,
                                     prefix: seq<Id>, c: Id, cmap: map<Id, Details>)
    requires CountsMatch(counts, prefix, cmap)
    requires counts'.Keys == if c in cmap then counts.Keys + {c} else counts.Keys
    requires forall x :: x in counts' && x != c ==> counts'[x] == counts[x]
    requires c in cmap ==> counts'[c] == VoteCount(Occurrences(prefix, c) + 1, cmap[c])
    ensures CountsMatch(counts', prefix + [c], cmap)
  {
    forall x ensures Occurrences(prefix + [c], x) == Occurrences(prefix, x) + (if x == c then 1 else 0) {
      OccurrencesSnoc(prefix, c, x);
    }
  }

  /** One turn of the counting loop extends the key order exactly when it
      inserts a new key. */
  lemma {:induction false} OrderStep(prefix: seq<Id>, c: Id, cmap: map<Id, Details>)
    ensures Unique(Counted(prefix + [c], cmap)) ==
      if c in cmap && c !in Counted(prefix, cmap) then Unique(Counted(prefix, cmap)) + [c]
      else Unique(Counted(prefix, cmap))
  {
    var longer := prefix + [c];
    var cp, cl := Counted(prefix, cmap), Counted(longer, cmap);
    assert longer[..|longer| - 1] == prefix && longer[|longer| - 1] == c;
    if c in cmap {
      assert cl == cp + [c];
      assert cl[..|cl| - 1] == cp;
      UniqueHasSameValues(cp, c);
    } else {
      assert cl == cp;
    }
  }

  /** The dictionary half of the loop body for ballot `c` after the ballots
      in `prefix`: a dictionary right for `prefix` is right for
      `prefix + [c]` after the update. */
  lemma {:induction false} CountsAfterTurn(counts: map<Id, VoteCount>, counts': map<Id, VoteCount>,
                                           prefix: seq<Id>, c: Id, cmap: map<Id, Details>)
    requires CountsMatch(counts, prefix, cmap)
    requires c !in cmap ==> counts' == counts
    requires c in cmap && c !in counts ==>
      counts'.Keys == counts.Keys + {c} && counts'[c] == VoteCount(1, cmap[c])
    requires c in cmap && c in counts ==>
      counts'.Keys == counts.Keys && counts'[c] == counts[c].(count := counts[c].count + 1)
    requires forall x :: x in counts' && x != c ==> counts'[x] == counts[x]
    ensures CountsMatch(counts', prefix + [c], cmap)
  {
    CountStep(counts, counts', prefix, c, cmap);
  }

  /** The key-order half of the loop body: a key is appended exactly when
      the ballot's candidate had no entry yet. */
  lemma {:induction false} OrderAfterTurn(counts: map<Id, VoteCount>, order: seq<Id>, order': seq<Id>,
                                          prefix: seq<Id>, c: Id, cmap: map<Id, Details>)
    requires CountsMatch(counts, prefix, cmap) && order == Unique(Counted(prefix, cmap))
    requires order' == if c in cmap && c !in counts then order + [c] else order
    ensures order' == Unique(Counted(prefix + [c], cmap))
  {
    OrderStep(prefix, c, cmap);
    if c in cmap {
      assert c in counts <==> Occurrences(prefix, c) > 0;
      assert c in Counted(prefix, cmap) <==> c in prefix;
    }
  }

  /** The loop body for one ballot `c`: a candidate seen for the first time
      gets a count of zero with its details, then its count goes up by one;
      a ballot for any other id is skipped. */
  method CountBallot(counts: map<Id, VoteCount>, order: seq<Id>, c: Id, cmap: map<Id, Details>)
    returns (counts': map<Id, VoteCount>, order': seq<Id>)
    ensures c !in cmap ==> counts' == counts
    ensures c in cmap && c !in counts ==>
      counts'.Keys == counts.Keys + {c} && counts'[c] == VoteCount(1, cmap[c])
    ensures c in cmap && c in counts ==>
      counts'.Keys == counts.Keys && counts'[c] == counts[c].(count := counts[c].count + 1)
    ensures forall x :: x in counts' && x != c ==> counts'[x] == counts[x]
    ensures order' == if c in cmap && c !in counts then order + [c] else order
  {
    counts', order' := counts, order;
    if c in cmap {
      if c !in counts' {
        counts' := counts'[c := VoteCount(0, cmap[c])];
        order' := order' + [c];
      }
      counts' := counts'[c := counts'[c].(count := counts'[c].count + 1)];
    }
  }

  /** The counting loop. A Dafny map has no key order, so besides the
      dictionary it returns the keys in the order they were inserted. */
  method CountVotes(votes: seq<Id>, cmap: map<Id, Details>)
    returns (counts: map<Id, VoteCount>, order: seq<Id>)
    ensures counts == CountsFor(votes, cmap)
    ensures order == Unique(Counted(votes, cmap))
  {
    counts, order := map[], [];
    for i := 0 to |votes|
      invariant CountsMatch(counts, votes[..i], cmap)
      invariant order == Unique(Counted(votes[..i], cmap))
    {
      var c := votes[i];
      assert votes[..i + 1] == votes[..i] + [c];
      var counts', order' := CountBallot(counts, order, c, cmap);
      CountsAfterTurn(counts, counts', votes[..i], c, cmap);
      OrderAfterTurn(counts, order, order', votes[..i], c, cmap);
      counts, order := counts', order';
    }
    assert votes[..|votes|] == votes;
    CountsMatchIsCountsFor(counts, votes, cmap);
  }

  /** Ids in strictly increasing order. */
  predicate Increasing(ids: seq<Id>)
  {
    forall i, j :: 0 <= i < j < |ids| ==> ids[i] < ids[j]
  }

  function InsertId(x: Id, ids: seq<Id>): (r: seq<Id>)
    requires Increasing(ids) && x !in ids
    ensures Increasing(r) && |r| == |ids| + 1
    ensures forall y :: y in r <==> y == x || y in ids
  {
    if |ids| == 0 || x < ids[0] then [x] + ids
    else
      assert ids == [ids[0]] + ids[1..];
      var t := InsertId(x, ids[1..]);
      assert forall k :: 0 <= k < |t| ==> ids[0] < t[k] by {
        forall k | 0 <= k < |t| ensures ids[0] < t[k] {
          assert t[k] in t;
          if t[k] != x {
            var m :| 0 <= m < |ids[1..]| && ids[1..][m] == t[k];
            assert ids[m + 1] == t[k];
          }
        }
      }
      [ids[0]] + t
  }

  /** The keys as `Object.entries` lists them: array-index keys come out in
      ascending numeric order, whatever order they were inserted in. */
  function AscendingIds(keys: seq<Id>): (r: seq<Id>)
    requires NoDup(keys)
    ensures Increasing(r) && |r| == |keys|
    ensures forall y :: y in r <==> y in keys
  {
    if |keys| == 0 then []
    else
      assert keys == [keys[0]] + keys[1..];
      assert keys[0] !in keys[1..] by {
        forall m | 0 <= m < |keys[1..]| ensures keys[1..][m] != keys[0] {
          assert keys[1..][m] == keys[m + 1];
        }
      }
      InsertId(keys[0], AscendingIds(keys[1..]))
  }

  /** An entry paired with its position in the dictionary's key order. */
  datatype Ranked = Ranked(pos: nat, standing: Standing)

  function StandingOf(id: Id, vc: VoteCount): Standing
  {
    Standing(id, vc.details.nama, vc.details.blok, vc.details.nomorRumah, vc.count)
  }

  /** `Object.entries(voteCounts).map(...)`, in key order. */
  function Entries(order: seq<Id>, counts: map<Id, VoteCount>): (r: seq<Ranked>)
    requires forall k :: 0 <= k < |order| ==> order[k] in counts
    ensures |r| == |order|
    ensures forall k :: 0 <= k < |order| ==> r[k] == Ranked(k, StandingOf(order[k], counts[order[k]]))
  {
    seq(|order|, k requires 0 <= k < |order| => Ranked(k, StandingOf(order[k], counts[order[k]])))
  }

  /** `a` comes before `b` after a stable sort by votes, descending. */
  predicate Precedes(a: Ranked, b: Ranked)
  {
    a.standing.votes > b.standing.votes || (a.standing.votes == b.standing.votes && a.pos < b.pos)
  }

  predicate Ranks(s: seq<Ranked>)
  {
    forall i, j :: 0 <= i < j < |s| ==> Precedes(s[i], s[j])
  }

  predicate DistinctPositions(s: seq<Ranked>)
  {
    forall i, j :: 0 <= i < j < |s| ==> s[i].pos != s[j].pos
  }

  function InsertRanked(x: Ranked, s: seq<Ranked>): (r: seq<Ranked>)
    requires Ranks(s)
    requires forall k :: 0 <= k < |s| ==> s[k].pos != x.pos
    ensures Ranks(r)
    ensures multiset(r) == multiset(s) + multiset{x}
  {
    if |s| == 0 || Precedes(x, s[0]) then [x] + s
    else
      var t := InsertRanked(x, s[1..]);
      assert s == [s[0]] + s[1..];
      assert forall k :: 0 <= k < |t| ==> Precedes(s[0], t[k]) by {
        forall k | 0 <= k < |t| ensures Precedes(s[0], t[k]) {
          assert t[k] in multiset(t);
          if t[k] != x {
            assert t[k] in multiset(s[1..]);
            var m :| 0 <= m < |s[1..]| && s[1..][m] == t[k];
            assert s[m + 1] == t[k];
          }
        }
      }
      [s[0]] + t
  }

  /** `.sort((a, b) => b.votes - a.votes)`, a stable sort. */
  function SortRanked(s: seq<Ranked>): (r: seq<Ranked>)
    requires DistinctPositions(s)
    ensures Ranks(r)
    ensures multiset(r) == multiset(s)
  {
    if |s| == 0 then []
    else
      assert s == [s[0]] + s[1..];
      var t := SortRanked(s[1..]);
      assert forall k :: 0 <= k < |t| ==> t[k].pos != s[0].pos by {
        forall k | 0 <= k < |t| ensures t[k].pos != s[0].pos {
          assert t[k] in multiset(s[1..]);
          var m :| 0 <= m < |s[1..]| && s[1..][m] == t[k];
          assert s[m + 1] == t[k];
        }
      }
      InsertRanked(s[0], t)
  }

  function Standings(s: seq<Ranked>): (r: seq<Standing>)
    ensures |r| == |s| && forall k :: 0 <= k < |s| ==> r[k] == s[k].standing
  {
    seq(|s|, k requires 0 <= k < |s| => s[k].standing)
  }

  /** Votes never increase along `s`. */
  predicate NonIncreasing(s: seq<Standing>)
  {
    forall i, j :: 0 <= i < j < |s| ==> s[i].votes >= s[j].votes
  }

  /** `.slice(0, 3)`. */
  function Top(s: seq<Standing>): (r: seq<Standing>)
    ensures |r| == if |s| < TopN then |s| else TopN
    ensures r == s[..|r|]
    ensures NonIncreasing(s) ==> NonIncreasing(r)
  {
    if |s| < TopN then s else s[..TopN]
  }

  /** The voted ids of the store's ballots. */
  function Votes(db: Db): seq<Id>
  {
    CalonIds(db.pilihan)
  }

  /** The candidate dictionary the route builds for this store. */
  function CandidatesOf(db: Db): map<Id, Details>
  {
    CandidateMap(CandidateRows(db.warga, Unique(Votes(db))))
  }

  /** The dictionary's keys in insertion order. */
  function OrderOf(db: Db): seq<Id>
  {
    Unique(Counted(Votes(db), CandidatesOf(db)))
  }

  /** The vote-count dictionary after the counting loop. */
  function CountsOf(db: Db): map<Id, VoteCount>
  {
    CountsFor(Votes(db), CandidatesOf(db))
  }

  /** The dictionary's keys as `Object.entries` lists them. */
  function KeysOf(db: Db): seq<Id>
  {
    AscendingIds(OrderOf(db))
  }

  /** Every listed key has a count: the keys are exactly the candidates with
      a counted ballot. */
  lemma KeysAreCounted(db: Db)
    ensures forall c :: c in KeysOf(db) <==> c in CountsOf(db)
  {
    var counted := Counted(Votes(db), CandidatesOf(db));
    forall c ensures c in KeysOf(db) <==> c in CountsOf(db) {
      UniqueHasSameValues(counted, c);
    }
  }

  function EntriesOf(db: Db): seq<Ranked>
  {
    KeysAreCounted(db);
    Entries(KeysOf(db), CountsOf(db))
  }

  /** The entries after the stable sort. */
  function SortedOf(db: Db): seq<Ranked>
  {
    SortRanked(EntriesOf(db))
  }

  /** Every counted candidate, ranked, before the top-three cut. */
  function Ranking(db: Db): seq<Standing>
  {
    Standings(SortedOf(db))
  }

  /** The data of a successful response: at most three entries, votes
      never increasing. */
  function TallyOf(db: Db): (r: seq<Standing>)
    ensures |r| <= TopN && NonIncreasing(r)
  {
    RankingNonIncreasing(db);
    Top(Ranking(db))
  }

  /** The route. `votesError` and `candidatesError` are the failures the two
      store queries report, if any. */
  method Tally(db: Db, votesError: Option<string>, candidatesError: Option<string>)
    returns (r: ResultsResponse)
    ensures votesError.Some? ==> r == Error(votesError.value)
    ensures votesError.None? && candidatesError.Some? ==> r == Error(candidatesError.value)
    ensures votesError.None? && candidatesError.None? ==> r == Ok(TallyOf(db))
  {
    if votesError.Some? {
      return Error(votesError.value);
    }
    var votes := CalonIds(db.pilihan);
    var uniqueCalonIds := Unique(votes);
    if candidatesError.Some? {
      return Error(candidatesError.value);
    }
    var candidates := CandidateRows(db.warga, uniqueCalonIds);
    var cmap := BuildCandidateMap(candidates);
    assert cmap == CandidatesOf(db);
    var counts, order := CountVotes(votes, cmap);
    assert counts == CountsOf(db) && order == OrderOf(db);
    var keys := AscendingIds(order);
    KeysAreCounted(db);
    var entries := Entries(keys, counts);
    assert entries == EntriesOf(db);
    r := Ok(Top(Standings(SortRanked(entries))));
  }

  /** A voted id is in the candidate dictionary exactly when it is the id of
      a candidate row, and its details are copied from such a row. */
  lemma {:induction false} CandidatesOfFacts(db: Db, c: Id)
    ensures c in CandidatesOf(db) <==> IsCandidate(db.warga, c) && c in Votes(db)
    ensures c in CandidatesOf(db) ==>
      exists i :: 0 <= i < |db.warga| && db.warga[i].id == c && db.warga[i].isCalon &&
                  CandidatesOf(db)[c] == DetailsOf(db.warga[i])
  {
    var ids := Unique(Votes(db));
    var cs := CandidateRows(db.warga, ids);
    UniqueHasSameValues(Votes(db), c);
    if c in CandidatesOf(db) {
      var k :| 0 <= k < |cs| && cs[k].id == c;
      assert cs[k] in cs;
      var d := CandidatesOf(db)[c];
      assert d in cs;
    }
    if IsCandidate(db.warga, c) && c in Votes(db) {
      var i :| 0 <= i < |db.warga| && db.warga[i].id == c && db.warga[i].isCalon;
      assert DetailsOf(db.warga[i]) in cs;
      var k :| 0 <= k < |cs| && cs[k] == DetailsOf(db.warga[i]);
      assert cs[k].id == c;
    }
  }

  /** Where the entry at position `k` of the sorted list came from. */
  lemma SortedSource(db: Db, k: int) returns (a: nat)
    requires 0 <= k < |SortedOf(db)|
    ensures a < |KeysOf(db)| && KeysOf(db)[a] in CountsOf(db)
    ensures SortedOf(db)[k] == Ranked(a, StandingOf(KeysOf(db)[a], CountsOf(db)[KeysOf(db)[a]]))
  {
    var sorted, entries := SortedOf(db), EntriesOf(db);
    KeysAreCounted(db);
    assert sorted[k] in multiset(entries);
    var m :| 0 <= m < |entries| && entries[m] == sorted[k];
    a := m;
  }

  /** Every entry of the ranking is a counted candidate: its votes are its
      number of ballots, at least one, and its details come from its row. */
  lemma RankingEntry(db: Db, k: int)
    requires 0 <= k < |Ranking(db)|
    ensures var e := Ranking(db)[k];
      e.votes == Occurrences(Votes(db), e.id) && e.votes >= 1 && e.id in Votes(db) &&
      exists i :: 0 <= i < |db.warga| && db.warga[i].id == e.id && db.warga[i].isCalon &&
        db.warga[i].nama == e.nama && db.warga[i].blok == e.blok &&
        db.warga[i].nomorRumah == e.nomorRumah
  {
    var a := SortedSource(db, k);
    var id := KeysOf(db)[a];
    UniqueHasSameValues(Counted(Votes(db), CandidatesOf(db)), id);
    CandidatesOfFacts(db, id);
  }

  /** The ranking is ordered by votes, never increasing, and among equal
      counts the smaller id comes first. */
  lemma RankingOrder(db: Db, i: int, j: int)
    requires 0 <= i < j < |Ranking(db)|
    ensures Ranking(db)[i].votes >= Ranking(db)[j].votes
    ensures Ranking(db)[i].id != Ranking(db)[j].id
    ensures Ranking(db)[i].id in Votes(db) && Ranking(db)[j].id in Votes(db)
    ensures Ranking(db)[i].votes == Ranking(db)[j].votes ==> Ranking(db)[i].id < Ranking(db)[j].id
  {
    var sorted := SortedOf(db);
    RankingEntry(db, i);
    RankingEntry(db, j);
    var a := SortedSource(db, i);
    var b := SortedSource(db, j);
    assert Precedes(sorted[i], sorted[j]);
    var keys := KeysOf(db);
    assert a != b;
    assert keys[a] != keys[b];
  }

  lemma RankingNonIncreasing(db: Db)
    ensures NonIncreasing(Ranking(db))
  {
    forall i, j | 0 <= i < j < |Ranking(db)| ensures Ranking(db)[i].votes >= Ranking(db)[j].votes {
      RankingOrder(db, i, j);
    }
  }

  /** An entry the cut leaves out sits after three kept entries. */
  lemma TopLeavesOut(s: seq<Standing>, k: int)
    requires 0 <= k < |s| && forall m :: 0 <= m < |Top(s)| ==> Top(s)[m].id != s[k].id
    ensures |Top(s)| == TopN && TopN <= k && Top(s)[TopN - 1] == s[TopN - 1]
  {
    var t := Top(s);
    assert forall m :: 0 <= m < |t| ==> t[m] == s[m];
    assert k < |t| ==> t[k].id == s[k].id;
  }

  /** Every candidate with at least one ballot is somewhere in the ranking. */
  lemma RankingComplete(db: Db, c: Id) returns (k: int)
    requires IsCandidate(db.warga, c) && c in Votes(db)
    ensures 0 <= k < |Ranking(db)| && Ranking(db)[k].id == c
  {
    var a := OrderPosition(db, c);
    var entries, sorted := EntriesOf(db), SortedOf(db);
    assert entries[a] in multiset(sorted);
    k :| 0 <= k < |sorted| && sorted[k] == entries[a];
    assert Ranking(db)[k] == entries[a].standing;
  }

  /** A candidate with a ballot has a key in the dictionary. */
  lemma OrderPosition(db: Db, c: Id) returns (a: int)
    requires IsCandidate(db.warga, c) && c in Votes(db)
    ensures 0 <= a < |KeysOf(db)| == |EntriesOf(db)| && EntriesOf(db)[a].standing.id == c
  {
    CandidatesOfFacts(db, c);
    var counted := Counted(Votes(db), CandidatesOf(db));
    UniqueHasSameValues(counted, c);
    var keys := KeysOf(db);
    assert c in keys;
    a :| 0 <= a < |keys| && keys[a] == c;
    KeysAreCounted(db);
  }

  /** The response holds at most three entries: as many as there are
      candidates with a ballot, up to three. */
  lemma TallyLength(db: Db)
    ensures |Ranking(db)| == |KeysOf(db)|
    ensures |TallyOf(db)| == if |KeysOf(db)| < TopN then |KeysOf(db)| else TopN
    ensures forall c :: c in KeysOf(db) <==> IsCandidate(db.warga, c) && c in Votes(db)
  {
    assert |multiset(SortedOf(db))| == |multiset(EntriesOf(db))|;
    forall c ensures c in KeysOf(db) <==> IsCandidate(db.warga, c) && c in Votes(db) {
      UniqueHasSameValues(Counted(Votes(db), CandidatesOf(db)), c);
      CandidatesOfFacts(db, c);
    }
  }

  /** Each returned entry carries its candidate's number of ballots, at
      least one, and the name, block and house number of that candidate's
      row. */
  lemma TallyEntry(db: Db, k: int)
    requires 0 <= k < |TallyOf(db)|
    ensures var e := TallyOf(db)[k];
      e.votes == Occurrences(Votes(db), e.id) && e.votes >= 1 &&
      exists i :: 0 <= i < |db.warga| && db.warga[i].id == e.id && db.warga[i].isCalon &&
        db.warga[i].nama == e.nama && db.warga[i].blok == e.blok &&
        db.warga[i].nomorRumah == e.nomorRumah
  {
    RankingEntry(db, k);
  }

  /** The returned entries are ordered by votes, never increasing, have
      distinct ids, and list the smaller id first on a tie. */
  lemma TallyOrder(db: Db, i: int, j: int)
    requires 0 <= i < j < |TallyOf(db)|
    ensures TallyOf(db)[i].votes >= TallyOf(db)[j].votes
    ensures TallyOf(db)[i].id != TallyOf(db)[j].id
    ensures TallyOf(db)[i].id in Votes(db) && TallyOf(db)[j].id in Votes(db)
    ensures TallyOf(db)[i].votes == TallyOf(db)[j].votes ==> TallyOf(db)[i].id < TallyOf(db)[j].id
  {
    RankingOrder(db, i, j);
  }

  /** A ballot for an id that is not a candidate row is never counted: that
      id does not appear in the response. */
  lemma TallyIgnoresNonCandidates(db: Db, c: Id)
    requires !IsCandidate(db.warga, c)
    ensures forall k :: 0 <= k < |TallyOf(db)| ==> TallyOf(db)[k].id != c
  {
    forall k | 0 <= k < |TallyOf(db)| ensures TallyOf(db)[k].id != c {
      TallyEntry(db, k);
    }
  }

  /** A candidate with ballots that is left out of the response lost out to
      three entries that each have at least as many votes; on a tie with the
      last of them, its id is the larger. */
  lemma TallyLeftOutHaveNoMoreVotes(db: Db, c: Id)
    requires IsCandidate(db.warga, c) && c in Votes(db)
    requires forall k :: 0 <= k < |TallyOf(db)| ==> TallyOf(db)[k].id != c
    ensures |TallyOf(db)| == TopN
    ensures Occurrences(Votes(db), c) <= TallyOf(db)[TopN - 1].votes
    ensures Occurrences(Votes(db), c) == TallyOf(db)[TopN - 1].votes ==> TallyOf(db)[TopN - 1].id < c
  {
    var k := RankingComplete(db, c);
    var ranking := Ranking(db);
    assert TallyOf(db) == Top(ranking);
    assert forall m :: 0 <= m < |Top(ranking)| ==> Top(ranking)[m].id != ranking[k].id;
    TopLeavesOut(ranking, k);
    RankingEntry(db, k);
    RankingOrder(db, TopN - 1, k);
  }

  /** With no ballots the response is empty. */
  lemma TallyEmptyWhenNoBallots(db: Db)
    requires |db.pilihan| == 0
    ensures TallyOf(db) == []
  {
    TallyLength(db);
    assert Votes(db) == [];
    assert OrderOf(db) == [];
  }

  /** One ballot, for a candidate: the dictionary has that one key. */
  lemma OrderOfSingleBallot(db: Db, c: Id)
    requires Votes(db) == [c] && c in CandidatesOf(db)
    ensures OrderOf(db) == [c] && KeysOf(db) == [c]
  {
    var votes := [c];
    assert votes[..0] == [];
    assert Counted(votes, CandidatesOf(db)) == [c];
    assert Unique([c]) == [c] by {
      assert [c][..0] == [];
    }
  }

  /** A first vote for a candidate shows up as that candidate alone, with
      one vote. */
  lemma FirstVoteIsCounted(db: Db, p: Id, i: int, u: Option<string>)
    requires |db.pilihan| == 0 && 0 <= i < |db.warga| && db.warga[i].isCalon
    ensures var db' := Vote.CastOn(db, p, db.warga[i].id, None, u).0;
      |TallyOf(db')| == 1 && TallyOf(db')[0].id == db.warga[i].id && TallyOf(db')[0].votes == 1
  {
    var c := db.warga[i].id;
    var db' := Vote.CastOn(db, p, c, None, u).0;
    assert db'.pilihan == [Pilihan(p, c)];
    assert Votes(db') == [c];
    assert IsCandidate(db'.warga, c) by {
      assert db'.warga[i].id == c && db'.warga[i].isCalon;
    }
    CandidatesOfFacts(db', c);
    OrderOfSingleBallot(db', c);
    TallyLength(db');
    TallyEntry(db', 0);
  }
}
