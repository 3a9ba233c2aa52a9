/** Candidate search (`GET /api/calon?q=...`): the `warga` rows flagged as
    candidates, narrowed by a case-insensitive substring of the name when a
    non-empty query is given, each shown as "nama / nomor_rumah / blok". */
module Calon {
  import opened Store
  import opened Text

  datatype Item = Item(id: Id, display: string)

  /** The route answers with the bare list, or with an error object. */
  datatype CalonResponse = Items(items: seq<Item>) | Error(message: string)

  const Separator := " / "

  /** The display label of one candidate. */
  function Label(nama: string, nomorRumah: string, blok: string): (s: string)
    ensures |s| == |nama| + |nomorRumah| + |blok| + 2 * |Separator|
  {
    nama + Separator + nomorRumah + Separator + blok
  }

  /** The query parameter filters only when present and non-empty. */
  predicate Filters(q: Option<string>)
  {
    q.Some? && |q.value| > 0
  }

  /** Row `w` survives `.eq('is_calon', true)` and, if filtering, `.ilike`. */
  predicate Selects(w: Warga, q: Option<string>)
  {
    w.isCalon && (Filters(q) ==> ILikeContains(w.nama, q.value))
  }

  /** The rows the query returns, in store order. */
  function Selected(warga: seq<Warga>, q: Option<string>): (r: seq<Warga>)
    ensures |r| <= |warga|
    ensures forall w :: w in r <==> w in warga && Selects(w, q)
  {
    if |warga| == 0 then []
    else
      assert warga == [warga[0]] + warga[1..];
      (if Selects(warga[0], q) then [warga[0]] else []) + Selected(warga[1..], q)
  }

  /** Selection keeps store order: selecting from two stretches of rows is
      selecting from each and concatenating. */
  lemma {:induction false} SelectedAppend(a: seq<Warga>, b: seq<Warga>, q: Option<string>)
    ensures Selected(a + b, q) == Selected(a, q) + Selected(b, q)
  {
    if |a| > 0 {
      assert (a + b)[1..] == a[1..] + b;
      SelectedAppend(a[1..], b, q);
    } else {
      assert a + b == b;
    }
  }

  /** Without a usable query every candidate is listed. */
  lemma NoQueryListsAllCandidates(warga: seq<Warga>, q: Option<string>, w: Warga)
    requires !Filters(q)
    ensures w in Selected(warga, q) <==> w in warga && w.isCalon
  {
  }

  /** With a query a candidate is listed exactly when some stretch of its
      name equals the query letter by letter, ignoring ASCII case. */
  lemma QueryMatchesIgnoringCase(warga: seq<Warga>, q: Option<string>, w: Warga)
    requires Filters(q)
    ensures w in Selected(warga, q) <==>
      w in warga && w.isCalon && exists i :: FoldedMatchAt(w.nama, q.value, i)
  {
    ILikeContainsWindow(w.nama, q.value);
  }

  /** The search route. `storeError` is the failure the store reports. */
  function Search(db: Db, q: Option<string>, storeError: Option<string>): (r: CalonResponse)
    ensures storeError.Some? ==> r == Error(storeError.value)
    ensures storeError.None? ==> (
      var rows := Selected(db.warga, q);
      r.Items? && |r.items| == |rows| &&
      forall k :: 0 <= k < |rows| ==>
        r.items[k].id == rows[k].id &&
        r.items[k].display == Label(rows[k].nama, rows[k].nomorRumah, rows[k].blok))
  {
    if storeError.Some? then Error(storeError.value)
    else
      var rows := Selected(db.warga, q);
      Items(seq(|rows|, k requires 0 <= k < |rows| =>
        Item(rows[k].id, Label(rows[k].nama, rows[k].nomorRumah, rows[k].blok))))
  }

  /** Every listed item belongs to a candidate row. */
  lemma SearchListsOnlyCandidates(db: Db, q: Option<string>, k: int)
    requires Search(db, q, None).Items? && 0 <= k < |Search(db, q, None).items|
    ensures exists i :: (0 <= i < |db.warga| && db.warga[i].isCalon &&
                         db.warga[i].id == Search(db, q, None).items[k].id)
  {
    var rows := Selected(db.warga, q);
    assert rows[k] in db.warga;
  }

  /** The first position of `c` in `s`, or |s| when it does not occur. */
  function IndexOf(s: string, c: char): (i: nat)
    ensures i <= |s|
    ensures i < |s| ==> s[i] == c
    ensures c !in s[..i]
  {
    if |s| == 0 then 0
    else if s[0] == c then 0
    else
      var k := IndexOf(s[1..], c);
      assert s[..k + 1] == [s[0]] + s[1..][..k];
      k + 1
  }

  /** Splits `s` around its first " / ", when it has one there. */
  function SplitAtSeparator(s: string): Option<(string, string)>
  {
    var i := IndexOf(s, '/');
    if i == 0 || i + 2 > |s| || s[i - 1..i + 2] != Separator then None
    else Some((s[..i - 1], s[i + 2..]))
  }

  /** Splits a label back into name, house number and block. */
  function ParseLabel(s: string): Option<(string, string, string)>
  {
    match SplitAtSeparator(s)
    case None => None
    case Some((nama, rest)) =>
      match SplitAtSeparator(rest)
      case None => None
      case Some((nomorRumah, blok)) => Some((nama, nomorRumah, blok))
  }

  lemma SplitAtSeparatorInverse(a: string, b: string)
    requires '/' !in a
    ensures SplitAtSeparator(a + Separator + b) == Some((a, b))
  {
    var s := a + Separator + b;
    assert s == (a + " ") + ['/'] + (" " + b);
    IndexOfAfter(a + " ", '/', " " + b);
    assert s[|a|..|a| + 3] == Separator;
    assert s[..|a|] == a && s[|a| + 3..] == b;
  }

  /** The label format loses nothing when the name and the house number
      contain no '/': the three fields can be read back from it, so two
      candidates with different fields get different labels. */
  lemma ParseLabelInverse(nama: string, nomorRumah: string, blok: string)
    requires '/' !in nama && '/' !in nomorRumah
    ensures ParseLabel(Label(nama, nomorRumah, blok)) == Some((nama, nomorRumah, blok))
  {
    var rest := nomorRumah + Separator + blok;
    assert Label(nama, nomorRumah, blok) == nama + Separator + rest;
    SplitAtSeparatorInverse(nama, rest);
    SplitAtSeparatorInverse(nomorRumah, blok);
  }

  lemma {:induction false} IndexOfAfter(a: string, c: char, b: string)
    requires c !in a
    ensures IndexOf(a + [c] + b, c) == |a|
  {
    if |a| > 0 {
      assert (a + [c] + b)[1..] == a[1..] + [c] + b;
      IndexOfAfter(a[1..], c, b);
    }
  }
}
