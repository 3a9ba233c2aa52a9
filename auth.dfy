/** Voter lookup (`POST /api/auth`): find the `warga` row whose household
    number, house number and block all equal the submitted ones, and answer
    error, forbidden (already voted) or ok with the row's fields. The lookup
    only reads the store. */
module Auth {
  import opened Store

  const NotFoundMessage := "Data tidak ditemukan."
  const ForbiddenMessage := "Anda sudah melakukan pemilihan."

  /** The three submitted fields that identify a voter. */
  datatype Key = Key(noKk: string, nomorRumah: string, blok: string)

  datatype AuthResponse =
    | Error(message: string)
    | Forbidden(message: string)
    | Ok(wargaId: Id, nama: string, noKk: string, nomorRumah: string, blok: string)

  /** Exact equality on all three key fields. */
  predicate KeyMatches(w: Warga, key: Key)
  {
    w.noKk == key.noKk && w.nomorRumah == key.nomorRumah && w.blok == key.blok
  }

  /** Row `i` matches the key and no other row does. */
  predicate UniqueMatch(warga: seq<Warga>, key: Key, i: int)
  {
    0 <= i < |warga| && KeyMatches(warga[i], key) &&
    forall j :: 0 <= j < |warga| && KeyMatches(warga[j], key) ==> j == i
  }

  /** The rows the three `.eq` filters keep, in store order. */
  function Matches(warga: seq<Warga>, key: Key): (r: seq<Warga>)
    ensures |r| <= |warga|
    ensures forall w :: w in r <==> w in warga && KeyMatches(w, key)
  {
    if |warga| == 0 then []
    else
      assert warga == [warga[0]] + warga[1..];
      (if KeyMatches(warga[0], key) then [warga[0]] else []) + Matches(warga[1..], key)
  }

  /** No row matches exactly when the filters keep nothing. */
  lemma {:induction false} MatchesEmpty(warga: seq<Warga>, key: Key)
    ensures Matches(warga, key) == [] <==>
      forall j :: 0 <= j < |warga| ==> !KeyMatches(warga[j], key)
  {
    if |warga| > 0 {
      MatchesEmpty(warga[1..], key);
      assert forall j :: 0 < j < |warga| ==> warga[j] == warga[1..][j - 1];
    }
  }

  /** A uniquely matching row is all the filters keep. */
  lemma {:induction false} MatchesOfUnique(warga: seq<Warga>, key: Key, i: int)
    requires UniqueMatch(warga, key, i)
    ensures Matches(warga, key) == [warga[i]]
  {
    if i == 0 {
      MatchesEmpty(warga[1..], key);
    } else {
      MatchesOfUnique(warga[1..], key, i - 1);
    }
  }

  /** `.single()` succeeds exactly when one row matches. */
  lemma {:induction false} SingleIffUnique(warga: seq<Warga>, key: Key)
    ensures |Matches(warga, key)| == 1 <==> exists i :: UniqueMatch(warga, key, i)
  {
    if |warga| > 0 {
      var rest := warga[1..];
      assert forall j :: 0 < j < |warga| ==> warga[j] == rest[j - 1];
      if KeyMatches(warga[0], key) {
        MatchesEmpty(rest, key);
        if exists i :: UniqueMatch(warga, key, i) {
          var i :| UniqueMatch(warga, key, i);
          assert i == 0;
        }
        if |Matches(warga, key)| == 1 {
          assert UniqueMatch(warga, key, 0);
        }
      } else {
        SingleIffUnique(rest, key);
        if exists k :: UniqueMatch(rest, key, k) {
          var k :| UniqueMatch(rest, key, k);
          assert UniqueMatch(warga, key, k + 1);
        }
        if exists i :: UniqueMatch(warga, key, i) {
          var i :| UniqueMatch(warga, key, i);
          assert UniqueMatch(rest, key, i - 1);
        }
      }
    }
  }

  /** The lookup and the decision that follows it. `storeError` is the
      failure the store reports, if any. */
  function Authenticate(db: Db, storeError: Option<string>, key: Key): (r: AuthResponse)
    ensures (r.Ok? || r.Forbidden?) <==>
      storeError.None? && exists i :: UniqueMatch(db.warga, key, i)
    ensures r.Error? ==> r.message == NotFoundMessage
    ensures forall i :: storeError.None? && UniqueMatch(db.warga, key, i) ==>
      r == if db.warga[i].sudahMemilih then Forbidden(ForbiddenMessage)
           else Ok(db.warga[i].id, db.warga[i].nama, db.warga[i].noKk,
                   db.warga[i].nomorRumah, db.warga[i].blok)
  {
    var rows := Matches(db.warga, key);
    SingleIffUnique(db.warga, key);
    if storeError.Some? || |rows| != 1 then
      Error(NotFoundMessage)
    else
      assert forall i :: UniqueMatch(db.warga, key, i) ==> rows == [db.warga[i]] by {
        forall i | UniqueMatch(db.warga, key, i) ensures rows == [db.warga[i]] {
          MatchesOfUnique(db.warga, key, i);
        }
      }
      var w := rows[0];
      if w.sudahMemilih then Forbidden(ForbiddenMessage)
      else Ok(w.id, w.nama, w.noKk, w.nomorRumah, w.blok)
  }

  /** A key that differs from every row in some field is never accepted. */
  lemma NoMatchIsError(db: Db, storeError: Option<string>, key: Key)
    requires forall i :: 0 <= i < |db.warga| ==> !KeyMatches(db.warga[i], key)
    ensures Authenticate(db, storeError, key) == Error(NotFoundMessage)
  {
  }

  /** Two rows sharing the key make the lookup fail rather than pick one. */
  lemma AmbiguousIsError(db: Db, storeError: Option<string>, key: Key, i: int, j: int)
    requires 0 <= i < j < |db.warga|
    requires KeyMatches(db.warga[i], key) && KeyMatches(db.warga[j], key)
    ensures Authenticate(db, storeError, key) == Error(NotFoundMessage)
  {
  }
}
