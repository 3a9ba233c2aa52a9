/** Text matching used by the candidate search: `ilike '%q%'` on the name,
    modelled as an ASCII case-folded substring test. */
module Text {

  function LowerChar(c: char): char
  {
    if 'A' <= c <= 'Z' then (c as int + 32) as char else c
  }

  /** ASCII lower-casing, character by character. */
  function Lower(s: string): (r: string)
    ensures |r| == |s|
    ensures forall i :: 0 <= i < |s| ==> r[i] == LowerChar(s[i])
  {
    if |s| == 0 then [] else [LowerChar(s[0])] + Lower(s[1..])
  }

  /** `p` occurs in `s` as a contiguous piece. */
  predicate Contains(s: string, p: string)
  {
    p <= s || (|s| > 0 && Contains(s[1..], p))
  }

  /** `p` sits in `s` starting at position `i`. */
  predicate WindowAt(s: string, p: string, i: int)
  {
    0 <= i <= |s| - |p| && s[i..i + |p|] == p
  }

  /** `Contains` is the same as "some window of `s` equals `p`". */
  lemma {:induction false} ContainsWindow(s: string, p: string)
    ensures Contains(s, p) <==> exists i :: WindowAt(s, p, i)
  {
    if p <= s {
      assert WindowAt(s, p, 0);
    } else if |s| > 0 {
      ContainsWindow(s[1..], p);
      if Contains(s[1..], p) {
        var i :| WindowAt(s[1..], p, i);
        assert s[i + 1..i + 1 + |p|] == s[1..][i..i + |p|];
        assert WindowAt(s, p, i + 1);
      }
      if exists i :: WindowAt(s, p, i) {
        var i :| WindowAt(s, p, i);
        // i == 0 would make p a prefix of s
        assert s[1..][i - 1..i - 1 + |p|] == s[i..i + |p|];
        assert WindowAt(s[1..], p, i - 1);
      }
    }
  }

  /** `nama ilike '%q%'`: `q` occurs in `nama`, ignoring ASCII case. */
  predicate ILikeContains(nama: string, q: string)
  {
    Contains(Lower(nama), Lower(q))
  }

  /** From position `i` on, `nama` agrees with `q` letter by letter once both
      are lower-cased. */
  predicate FoldedMatchAt(nama: string, q: string, i: int)
  {
    0 <= i <= |nama| - |q| &&
    forall k :: 0 <= k < |q| ==> LowerChar(nama[i + k]) == LowerChar(q[k])
  }

  /** The match holds exactly when `q` agrees, ignoring case, with some
      window of `nama`. */
  lemma ILikeContainsWindow(nama: string, q: string)
    ensures ILikeContains(nama, q) <==> exists i :: FoldedMatchAt(nama, q, i)
  {
    var ln, lq := Lower(nama), Lower(q);
    ContainsWindow(ln, lq);
    if ILikeContains(nama, q) {
      var i :| WindowAt(ln, lq, i);
      forall k | 0 <= k < |q| ensures LowerChar(nama[i + k]) == LowerChar(q[k]) {
        assert ln[i..i + |lq|][k] == lq[k];
      }
      assert FoldedMatchAt(nama, q, i);
    }
    if exists i :: FoldedMatchAt(nama, q, i) {
      var i :| FoldedMatchAt(nama, q, i);
      assert ln[i..i + |lq|] == lq;
      assert WindowAt(ln, lq, i);
    }
  }
}
