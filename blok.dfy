/** Block pick list (`GET /api/blok`): every distinct `blok` value of
    `warga`, read in ascending order and de-duplicated. */
module Blok {
  import opened Store
  import opened Dedup
  import opened StringOrder

  /** A pick-list route answers with the bare list of values, or with an
      HTTP error status and a message. */
  datatype PickResponse = Values(values: seq<string>) | Failed(httpStatus: nat, message: string)

  /** `.select('blok')`: the column, in store order. */
  function BlokColumn(warga: seq<Warga>): (r: seq<string>)
    ensures |r| == |warga| && forall i :: 0 <= i < |warga| ==> r[i] == warga[i].blok
  {
    seq(|warga|, i requires 0 <= i < |warga| => warga[i].blok)
  }

  /** `[...new Set(column ordered ascending)]`, with what it promises. */
  function DistinctAscending(column: seq<string>): (r: seq<string>)
    ensures StrictlyAscending(r)
    ensures forall v :: v in r <==> v in column
  {
    var sorted := Sort(column);
    assert forall v :: v in sorted <==> v in column by {
      forall v ensures v in sorted <==> v in column {
        assert v in sorted <==> v in multiset(sorted);
        assert v in column <==> v in multiset(column);
      }
    }
    UniqueOfAscending(sorted);
    Unique(sorted)
  }

  /** The route. `storeError` is the failure the store reports. */
  function ListBlok(db: Db, storeError: Option<string>): (r: PickResponse)
    ensures storeError.Some? ==> r == Failed(500, storeError.value)
    ensures storeError.None? ==> r.Values? && StrictlyAscending(r.values)
    ensures storeError.None? ==>
      forall v :: v in r.values <==> exists i :: 0 <= i < |db.warga| && db.warga[i].blok == v
  {
    if storeError.Some? then Failed(500, storeError.value)
    else
      var column := BlokColumn(db.warga);
      var values := DistinctAscending(column);
      assert forall v :: v in column <==> exists i :: 0 <= i < |db.warga| && db.warga[i].blok == v by {
        forall v | v in column ensures exists i :: 0 <= i < |db.warga| && db.warga[i].blok == v {
          var i :| 0 <= i < |column| && column[i] == v;
        }
      }
      Values(values)
  }

  /** Strictly ascending means no value is listed twice. */
  lemma ListBlokHasNoDuplicates(db: Db)
    ensures NoDup(ListBlok(db, None).values)
  {
  }
}
