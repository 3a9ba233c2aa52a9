/** The in-memory store the API routes read and write: the `warga` table of
    residents (some of whom are candidates) and the append-only `pilihan`
    table of ballots. Queries of the hosted database become filters over
    these sequences; a failing query becomes an explicit error message that
    the caller passes in. */
module Store {

  datatype Option<+T> = None | Some(value: T)

  /** Row ids are the tables' integer keys. */
  type Id = nat

  /** One row of `warga`. */
  datatype Warga = Warga(
    id: Id,
    noKk: string,
    nama: string,
    nomorRumah: string,
    blok: string,
    isCalon: bool,
    sudahMemilih: bool)

  /** One row of `pilihan`: who voted for whom. */
  datatype Pilihan = Pilihan(pemilihId: Id, calonId: Id)

  /** The whole store at one moment. */
  datatype Db = Db(warga: seq<Warga>, pilihan: seq<Pilihan>)

  /** Some row of `warga` has this id and is flagged as a candidate. */
  predicate IsCandidate(warga: seq<Warga>, id: Id)
  {
    exists i :: 0 <= i < |warga| && warga[i].id == id && warga[i].isCalon
  }

  /** The number of elements of `xs` equal to `x`. */
  function Occurrences<T(==)>(xs: seq<T>, x: T): (n: nat)
    ensures n <= |xs|
    ensures n == 0 <==> x !in xs
  {
    if |xs| == 0 then 0
    else Occurrences(xs[..|xs| - 1], x) + (if xs[|xs| - 1] == x then 1 else 0)
  }

  lemma {:induction false} OccurrencesAppend<T>(xs: seq<T>, ys: seq<T>, x: T)
    ensures Occurrences(xs + ys, x) == Occurrences(xs, x) + Occurrences(ys, x)
  {
    if |ys| == 0 {
      assert xs + ys == xs;
    } else {
      assert (xs + ys)[..|xs + ys| - 1] == xs + ys[..|ys| - 1];
      OccurrencesAppend(xs, ys[..|ys| - 1], x);
    }
  }
}
