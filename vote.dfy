/** Ballot box (`POST /api/vote`): append the ballot to `pilihan`, then set
    `sudah_memilih` on the voter's `warga` row. The route checks neither the
    voter's flag nor the candidate's flag first, and it reports success
    whatever the second step does. */
module Vote {
  import opened Store
  import Auth

  const ThanksMessage := "Terima kasih, suara Anda telah dicatat."

  datatype VoteResponse = Ok(message: string) | Error(message: string)

  /** `.update({ sudah_memilih: true }).eq('id', pemilihId)` on `warga`. */
  function MarkVoted(warga: seq<Warga>, pemilihId: Id): (r: seq<Warga>)
    ensures |r| == |warga|
    ensures forall i :: 0 <= i < |warga| && warga[i].id == pemilihId ==>
      r[i] == warga[i].(sudahMemilih := true)
    ensures forall i :: 0 <= i < |warga| && warga[i].id != pemilihId ==> r[i] == warga[i]
  {
    if |warga| == 0 then []
    else
      var w := warga[0];
      [if w.id == pemilihId then w.(sudahMemilih := true) else w] + MarkVoted(warga[1..], pemilihId)
  }

  /** The voter ids of the ballots, in order. */
  function Voters(pilihan: seq<Pilihan>): (r: seq<Id>)
    ensures |r| == |pilihan| && forall i :: 0 <= i < |pilihan| ==> r[i] == pilihan[i].pemilihId
  {
    seq(|pilihan|, i requires 0 <= i < |pilihan| => pilihan[i].pemilihId)
  }

  /** How many ballots voter `p` has cast. */
  function BallotsBy(pilihan: seq<Pilihan>, p: Id): nat
  {
    Occurrences(Voters(pilihan), p)
  }

  /** The route on a store value: the new store and the response. The insert
      fails with `insertError` when the store rejects the row; the flag update
      has no effect when `updateError` is given. */
  function CastOn(db: Db, pemilihId: Id, calonId: Id,
                  insertError: Option<string>, updateError: Option<string>): (r: (Db, VoteResponse))
    ensures r.1.Ok? <==> insertError.None?
    ensures insertError.Some? ==> r.0 == db && r.1.message == insertError.value
    ensures insertError.None? ==>
      r.0.pilihan == db.pilihan + [Pilihan(pemilihId, calonId)] && r.1.message == ThanksMessage
    ensures |r.0.warga| == |db.warga|
    ensures forall i :: 0 <= i < |db.warga| ==>
      r.0.warga[i] == db.warga[i].(sudahMemilih := r.0.warga[i].sudahMemilih)
    ensures forall i :: 0 <= i < |db.warga| ==>
      (r.0.warga[i].sudahMemilih <==>
        db.warga[i].sudahMemilih ||
        (insertError.None? && updateError.None? && db.warga[i].id == pemilihId))
  {
    if insertError.Some? then (db, Error(insertError.value))
    else
      var pilihan := db.pilihan + [Pilihan(pemilihId, calonId)];
      var warga := if updateError.None? then MarkVoted(db.warga, pemilihId) else db.warga;
      (Db(warga, pilihan), Ok(ThanksMessage))
  }

  /** The store as the route sees it: rows updated in place, ballots
      appended. */
  class BallotBox {
    var warga: seq<Warga>
    var pilihan: seq<Pilihan>

    constructor (db: Db)
      ensures warga == db.warga && pilihan == db.pilihan
    {
      warga := db.warga;
      pilihan := db.pilihan;
    }

    function Snapshot(): Db
      reads this
    {
      Db(warga, pilihan)
    }

    /** Insert the ballot; on success set the voter's flag and thank them. */
    method Cast(pemilihId: Id, calonId: Id, insertError: Option<string>, updateError: Option<string>)
      returns (r: VoteResponse)
      modifies this
      ensures insertError.Some? ==>
        r == Error(insertError.value) && warga == old(warga) && pilihan == old(pilihan)
      ensures insertError.None? ==>
        r == Ok(ThanksMessage) && pilihan == old(pilihan) + [Pilihan(pemilihId, calonId)]
      ensures insertError.None? && updateError.None? ==> warga == MarkVoted(old(warga), pemilihId)
      ensures updateError.Some? ==> warga == old(warga)
      ensures (Snapshot(), r) == CastOn(old(Snapshot()), pemilihId, calonId, insertError, updateError)
    {
      if insertError.Some? {
        return Error(insertError.value);
      }
      pilihan := pilihan + [Pilihan(pemilihId, calonId)];
      if updateError.None? {
        warga := MarkVoted(warga, pemilihId);
      }
      r := Ok(ThanksMessage);
    }
  }

  /** A rejected insert changes nothing and reports the store's message. */
  lemma RejectedInsertChangesNothing(db: Db, p: Id, c: Id, e: string, u: Option<string>)
    ensures CastOn(db, p, c, Some(e), u) == (db, Error(e))
  {
  }

  /** An accepted insert appends exactly one ballot, keeps the earlier ones,
      and the response is ok whether or not the flag update took effect. */
  lemma {:induction false} AcceptedInsertAppendsOneBallot(db: Db, p: Id, c: Id, u: Option<string>)
    ensures var (db', r) := CastOn(db, p, c, None, u);
      r == Ok(ThanksMessage) &&
      |db'.pilihan| == |db.pilihan| + 1 &&
      db'.pilihan[..|db.pilihan|] == db.pilihan &&
      db'.pilihan[|db.pilihan|] == Pilihan(p, c) &&
      BallotsBy(db'.pilihan, p) == BallotsBy(db.pilihan, p) + 1
  {
    var pilihan' := db.pilihan + [Pilihan(p, c)];
    assert Voters(pilihan')[..|db.pilihan|] == Voters(db.pilihan);
  }

  /** The flag only ever moves to true, and only on the voter's own rows;
      every other row and every other field is left alone. */
  lemma FlagOnlyRises(db: Db, p: Id, c: Id, e: Option<string>, u: Option<string>)
    ensures var db' := CastOn(db, p, c, e, u).0;
      |db'.warga| == |db.warga| &&
      forall i :: 0 <= i < |db.warga| ==>
        (db.warga[i].sudahMemilih ==> db'.warga[i].sudahMemilih) &&
        db'.warga[i] == db.warga[i].(sudahMemilih := db'.warga[i].sudahMemilih) &&
        (db.warga[i].id != p ==> db'.warga[i] == db.warga[i])
  {
  }

  /** Nothing guards against a second vote: two accepted calls by the same
      voter leave two more ballots, even when the first call already set the
      voter's flag and whatever the candidates are. */
  lemma {:induction false} NoGuardAgainstSecondBallot(db: Db, p: Id, c1: Id, c2: Id,
                                                      u1: Option<string>, u2: Option<string>)
    ensures var (db1, r1) := CastOn(db, p, c1, None, u1);
      var (db2, r2) := CastOn(db1, p, c2, None, u2);
      r1 == r2 == Ok(ThanksMessage) &&
      BallotsBy(db2.pilihan, p) == BallotsBy(db.pilihan, p) + 2
  {
    AcceptedInsertAppendsOneBallot(db, p, c1, u1);
    var db1 := CastOn(db, p, c1, None, u1).0;
    AcceptedInsertAppendsOneBallot(db1, p, c2, u2);
  }

  /** After an accepted vote whose flag update took effect, logging in again
      with the voter's key is refused as "already voted". */
  lemma VotedVoterIsForbidden(db: Db, key: Auth.Key, i: int, c: Id)
    requires Auth.UniqueMatch(db.warga, key, i)
    ensures var db' := CastOn(db, db.warga[i].id, c, None, None).0;
      Auth.Authenticate(db', None, key) == Auth.Forbidden(Auth.ForbiddenMessage)
  {
    var db' := CastOn(db, db.warga[i].id, c, None, None).0;
    forall j | 0 <= j < |db.warga|
      ensures Auth.KeyMatches(db'.warga[j], key) == Auth.KeyMatches(db.warga[j], key)
    {
    }
    assert Auth.UniqueMatch(db'.warga, key, i);
  }
}
