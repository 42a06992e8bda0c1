/** Row selection and the latest week of a column: the two table operations
    the job builds on (boolean-mask filtering `df[mask]`, and
    `np.flip(np.sort(column))[0]`). */
module Selection {
  import opened Calendar

  /** `s[p(s)]`: the rows of `s` that satisfy `p`, in their original order. */
  function Where<T>(s: seq<T>, p: T -> bool): (r: seq<T>)
    ensures |r| <= |s|
    ensures forall k :: 0 <= k < |r| ==> p(r[k]) && r[k] in s
  {
    if s == [] then []
    else Where(s[..|s| - 1], p) + (if p(s[|s| - 1]) then [s[|s| - 1]] else [])
  }

  /** The positions of `s` whose rows `p` keeps, ascending; every kept
      position is listed. */
  ghost function Positions<T>(s: seq<T>, p: T -> bool): (idx: seq<nat>)
    ensures forall k :: 0 <= k < |idx| ==> idx[k] < |s| && p(s[idx[k]])
    ensures forall k, l :: 0 <= k < l < |idx| ==> idx[k] < idx[l]
    ensures forall i :: 0 <= i < |s| && p(s[i]) ==> i in idx
  {
    if s == [] then []
    else Positions(s[..|s| - 1], p) + (if p(s[|s| - 1]) then [|s| - 1] else [])
  }

  /** `Where` takes exactly the rows at `Positions`: no row is invented,
      reordered or duplicated, and none that `p` accepts is dropped. */
  lemma {:induction false} WhereIsSubsequence<T>(s: seq<T>, p: T -> bool)
    ensures |Where(s, p)| == |Positions(s, p)|
    ensures forall k :: 0 <= k < |Where(s, p)| ==> Where(s, p)[k] == s[Positions(s, p)[k]]
  {
    if s != [] {
      WhereIsSubsequence(s[..|s| - 1], p);
    }
  }

  /** A row that `p` accepts is among the selected rows. */
  lemma WhereKeeps<T>(s: seq<T>, p: T -> bool, i: nat)
    requires i < |s| && p(s[i])
    ensures s[i] in Where(s, p)
  {
    WhereIsSubsequence(s, p);
    var idx := Positions(s, p);
    var k :| 0 <= k < |idx| && idx[k] == i;
    assert Where(s, p)[k] == s[i];
  }

  /** Nothing is selected iff no row is accepted. */
  lemma {:induction false} WhereEmpty<T>(s: seq<T>, p: T -> bool)
    ensures |Where(s, p)| == 0 <==> forall k :: 0 <= k < |s| ==> !p(s[k])
  {
    WhereIsSubsequence(s, p);
    var idx := Positions(s, p);
    if exists k :: 0 <= k < |s| && p(s[k]) {
      var k :| 0 <= k < |s| && p(s[k]);
      assert k in idx;
    }
    if |idx| > 0 {
      assert p(s[idx[0]]);
    }
  }

  /** Filtering twice is filtering once by both conditions. */
  lemma {:induction false} WhereWhere<T>(s: seq<T>, p: T -> bool, q: T -> bool, both: T -> bool)
    requires forall x :: both(x) == (p(x) && q(x))
    ensures Where(Where(s, p), q) == Where(s, both)
  {
    if s != [] {
      var init, last := s[..|s| - 1], s[|s| - 1];
      assert s[..|s| - 1] == init;
      WhereWhere(init, p, q, both);
      if p(last) {
        var w := Where(init, p) + [last];
        assert Where(s, p) == w;
        assert w[..|w| - 1] == Where(init, p);
        assert Where(w, q) == Where(Where(init, p), q) + (if q(last) then [last] else []);
      } else {
        assert Where(s, p) == Where(init, p);
      }
    }
  }

  /** Two conditions that agree on every row select the same rows. */
  lemma {:induction false} WhereAgree<T>(s: seq<T>, p: T -> bool, q: T -> bool)
    requires forall k :: 0 <= k < |s| ==> p(s[k]) == q(s[k])
    ensures Where(s, p) == Where(s, q)
  {
    if s != [] {
      WhereAgree(s[..|s| - 1], p, q);
    }
  }

  /** `np.flip(np.sort(ws))[0]`: the latest week in a non-empty column. */
  function Latest(ws: seq<Day>): (m: Day)
    requires |ws| > 0
    ensures m in ws
    ensures forall k :: 0 <= k < |ws| ==> ws[k] <= m
  {
    if |ws| == 1 then ws[0]
    else
      var before := Latest(ws[..|ws| - 1]);
      if ws[|ws| - 1] > before then ws[|ws| - 1] else before
  }
}
