/** Substring tests on strings, as the classifier uses them: Rust's
    `str::contains(&str)` and `needles.iter().any(|n| hay.contains(n))`. */
module Text {

  /** `p` appears in `s` starting at index `i`. */
  predicate OccursAt(s: string, p: string, i: nat)
  {
    i + |p| <= |s| && s[i..i + |p|] == p
  }

  /** The reference meaning of `s.contains(p)`: `p` appears somewhere in `s`. */
  ghost predicate Occurs(s: string, p: string)
  {
    exists i: nat :: OccursAt(s, p, i)
  }

  lemma {:induction false} OccursShift(s: string, p: string)
    requires |s| > 0 && !OccursAt(s, p, 0)
    ensures Occurs(s, p) <==> Occurs(s[1..], p)
  {
    if Occurs(s, p) {
      var i: nat :| OccursAt(s, p, i);
      assert i > 0;
      assert s[1..][i - 1..i - 1 + |p|] == s[i..i + |p|];
      assert OccursAt(s[1..], p, i - 1);
    }
    if Occurs(s[1..], p) {
      var i: nat :| OccursAt(s[1..], p, i);
      assert s[1..][i..i + |p|] == s[i + 1..i + 1 + |p|];
      assert OccursAt(s, p, i + 1);
    }
  }

  /** `s.contains(p)`, scanning from the left. The empty pattern is
      contained in every string. */
  function Contains(s: string, p: string): (r: bool)
    ensures r <==> Occurs(s, p)
    decreases |s|
  {
    if |p| > |s| then false
    else if s[..|p|] == p then assert OccursAt(s, p, 0); true
    else OccursShift(s, p); Contains(s[1..], p)
  }

  /** The reference meaning of `needles.iter().any(|n| hay.contains(n))`. */
  ghost predicate OccursAny(hay: string, needles: seq<string>)
  {
    exists j :: 0 <= j < |needles| && Occurs(hay, needles[j])
  }

  /** `needles.iter().any(|n| hay.contains(n))`. */
  function ContainsAny(hay: string, needles: seq<string>): (r: bool)
    ensures r <==> OccursAny(hay, needles)
  {
    if |needles| == 0 then false
    else if Contains(hay, needles[0]) then true
    else
      assert forall j :: 1 <= j < |needles| ==> needles[j] == needles[1..][j - 1];
      ContainsAny(hay, needles[1..])
  }

  /** Testing a concatenated list of needles is testing each list. */
  lemma ContainsAnyAppend(hay: string, xs: seq<string>, ys: seq<string>)
    ensures ContainsAny(hay, xs + ys) <==> ContainsAny(hay, xs) || ContainsAny(hay, ys)
  {
    var zs := xs + ys;
    if OccursAny(hay, zs) {
      var j :| 0 <= j < |zs| && Occurs(hay, zs[j]);
      if j >= |xs| {
        assert zs[j] == ys[j - |xs|];
      }
    }
    if OccursAny(hay, xs) {
      var j :| 0 <= j < |xs| && Occurs(hay, xs[j]);
      assert zs[j] == xs[j];
    }
    if OccursAny(hay, ys) {
      var j :| 0 <= j < |ys| && Occurs(hay, ys[j]);
      assert zs[|xs| + j] == ys[j];
    }
  }

  /** An empty needle matches every string. */
  lemma EmptyNeedleMatches(hay: string, needles: seq<string>)
    requires "" in needles
    ensures ContainsAny(hay, needles)
  {
    assert OccursAt(hay, "", 0);
    var j :| 0 <= j < |needles| && needles[j] == "";
    assert Occurs(hay, needles[j]);
  }
}
