/** House-number pick list (`GET /api/nomor-rumah?blok=...`): the distinct
    `nomor_rumah` values of the rows in one block, in ascending order. The
    block parameter is required. */
module NomorRumah {
  import opened Store
  import opened StringOrder
  import opened Blok

  const MissingBlokMessage := "Blok parameter is required"

  /** `.select('nomor_rumah').eq('blok', blok)`: the column of the rows in
      that block, in store order. */
  function NomorRumahInBlok(warga: seq<Warga>, blok: string): (r: seq<string>)
    ensures forall v :: v in r <==>
      exists i :: 0 <= i < |warga| && warga[i].blok == blok && warga[i].nomorRumah == v
  {
    if |warga| == 0 then []
    else
      var rest := NomorRumahInBlok(warga[1..], blok);
      assert forall i :: 0 < i < |warga| ==> warga[i] == warga[1..][i - 1];
      assert forall v :: v in rest ==>
        exists i :: 0 <= i < |warga| && warga[i].blok == blok && warga[i].nomorRumah == v by {
        forall v | v in rest ensures
          exists i :: 0 <= i < |warga| && warga[i].blok == blok && warga[i].nomorRumah == v {
          var k :| 0 <= k < |warga[1..]| && warga[1..][k].blok == blok && warga[1..][k].nomorRumah == v;
          assert warga[k + 1].blok == blok && warga[k + 1].nomorRumah == v;
        }
      }
      (if warga[0].blok == blok then [warga[0].nomorRumah] else []) + rest
  }

  /** The route. `blok` is the query parameter, absent or as given;
      `storeError` is the failure the store reports. */
  function ListNomorRumah(db: Db, blok: Option<string>, storeError: Option<string>): (r: PickResponse)
    ensures blok.None? || blok.value == "" ==> r == Failed(400, MissingBlokMessage)
    ensures blok.Some? && blok.value != "" && storeError.Some? ==> r == Failed(500, storeError.value)
    ensures blok.Some? && blok.value != "" && storeError.None? ==>
      r.Values? && StrictlyAscending(r.values)
    ensures blok.Some? && blok.value != "" && storeError.None? ==>
      forall v :: v in r.values <==>
        exists i :: 0 <= i < |db.warga| && db.warga[i].blok == blok.value && db.warga[i].nomorRumah == v
  {
    if blok.None? || blok.value == "" then Failed(400, MissingBlokMessage)
    else if storeError.Some? then Failed(500, storeError.value)
    else Values(DistinctAscending(NomorRumahInBlok(db.warga, blok.value)))
  }
}
