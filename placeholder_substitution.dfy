/**
 * Why an unsupplied `{{key}}` survives the substitution loop of `loadEmailTemplate` wherever it
 * stands: another key's placeholder can neither occur inside it nor straddle its edges, so each
 * literal replace acts on the text before it and the text after it separately.
 */
module PlaceholderSubstitution {
  import opened Text
  import opened EmailTemplate

  /** No occurrence of `p` in `a + r` starts inside `a` and ends inside `r`. */
  predicate NoStraddle(a: string, r: string, p: string) {
    forall i :: 0 <= i < |a| < i + |p| ==> !OccursAt(a + r, p, i)
  }

  /** Where no occurrence straddles the seam, replacing in `a + r` is replacing in each part. */
  lemma {:induction false} ReplaceAllSplits(a: string, r: string, p: string, v: string)
    requires p != [] && NoStraddle(a, r, p)
    ensures ReplaceAll(a + r, p, v) == ReplaceAll(a, p, v) + ReplaceAll(r, p, v)
    decreases |a|
  {
    if a == [] {
      assert a + r == r;
    } else if |a + r| < |p| {
    } else if (a + r)[..|p|] == p {
      assert OccursAt(a + r, p, 0);
      SplitsAfterMatch(a, r, p);
      ReplaceAllSplits(a[|p|..], r, p, v);
      SplitsMatchStep(a, r, p, v);
    } else {
      SplitsAfterChar(a, r, p);
      ReplaceAllSplits(a[1..], r, p, v);
      SplitsCharStep(a, r, p, v);
    }
  }

  /** The step of `ReplaceAllSplits` at a leading occurrence, given the split of the rest. */
  lemma SplitsMatchStep(a: string, r: string, p: string, v: string)
    requires p != [] && |p| <= |a| && a[..|p|] == p
    requires ReplaceAll(a[|p|..] + r, p, v) == ReplaceAll(a[|p|..], p, v) + ReplaceAll(r, p, v)
    ensures ReplaceAll(a + r, p, v) == ReplaceAll(a, p, v) + ReplaceAll(r, p, v)
  {
    assert (a + r)[..|p|] == p;
    assert (a + r)[|p|..] == a[|p|..] + r;
  }

  /** The step of `ReplaceAllSplits` past a character that starts no occurrence. */
  lemma SplitsCharStep(a: string, r: string, p: string, v: string)
    requires p != [] && a != [] && |p| <= |a + r| && (a + r)[..|p|] != p
    requires ReplaceAll(a[1..] + r, p, v) == ReplaceAll(a[1..], p, v) + ReplaceAll(r, p, v)
    ensures ReplaceAll(a + r, p, v) == ReplaceAll(a, p, v) + ReplaceAll(r, p, v)
  {
    assert (a + r)[1..] == a[1..] + r;
    assert ReplaceAll(a + r, p, v) == [a[0]] + ReplaceAll(a[1..] + r, p, v);
    if |p| <= |a| {
      assert a[..|p|] == (a + r)[..|p|];
      assert ReplaceAll(a, p, v) == [a[0]] + ReplaceAll(a[1..], p, v);
    } else {
      assert ReplaceAll(a[1..], p, v) == a[1..];
      assert a == [a[0]] + a[1..];
    }
  }

  /** The seam condition survives dropping a leading occurrence of `p`. */
  lemma SplitsAfterMatch(a: string, r: string, p: string)
    requires p != [] && NoStraddle(a, r, p) && OccursAt(a + r, p, 0) && a != []
    ensures |p| <= |a| && a[..|p|] == p && NoStraddle(a[|p|..], r, p)
  {
    var rest := a[|p|..];
    forall i | 0 <= i < |rest| < i + |p|
      ensures !OccursAt(rest + r, p, i)
    {
      if i + |p| <= |rest + r| {
        assert (rest + r)[i..i + |p|] == (a + r)[i + |p|..i + |p| + |p|];
        assert !OccursAt(a + r, p, i + |p|);
      }
    }
  }

  /** The seam condition survives dropping the first character. */
  lemma SplitsAfterChar(a: string, r: string, p: string)
    requires p != [] && NoStraddle(a, r, p) && a != []
    ensures NoStraddle(a[1..], r, p)
  {
    forall i | 0 <= i < |a[1..]| < i + |p|
      ensures !OccursAt(a[1..] + r, p, i)
    {
      if i + |p| <= |a[1..] + r| {
        assert (a[1..] + r)[i..i + |p|] == (a + r)[i + 1..i + 1 + |p|];
        assert !OccursAt(a + r, p, i + 1);
      }
    }
  }

  /** Inside a placeholder, every character after the opening `{{` differs from `{`. */
  lemma PlaceholderInnerNotBrace(k: string, t: nat)
    requires IsTemplateKey(k) && 2 <= t < |Placeholder(k)|
    ensures Placeholder(k)[t] != '{'
  {
    if t < |k| + 2 {
      assert Placeholder(k)[t] == k[t - 2];
    }
  }

  /** No placeholder starts before a `{{k}}` and ends inside or after its start. */
  lemma NoStraddleBefore(a: string, k: string, b: string, k2: string)
    requires IsTemplateKey(k) && IsTemplateKey(k2)
    ensures NoStraddle(a, Placeholder(k) + b, Placeholder(k2))
  {
    var q, p := Placeholder(k), Placeholder(k2);
    var s := a + (q + b);
    forall i | 0 <= i < |a| < i + |p|
      ensures !OccursAt(s, p, i)
    {
      if i + |p| <= |s| {
        var t := |a| - i;
        var w := s[i..i + |p|];
        assert w[t] == q[0];
        if t == 1 {
          assert w[2] == q[1];
          assert p[2] == k2[0];
        } else {
          PlaceholderInnerNotBrace(k2, t);
        }
      }
    }
  }

  /** The characters of `{{k}}`, position by position. */
  lemma PlaceholderChars(k: string)
    ensures var q := Placeholder(k);
      && |q| == |k| + 4 && q[0] == '{' && q[1] == '{' && q[|k| + 2] == '}' && q[|k| + 3] == '}'
      && forall t :: 0 <= t < |k| ==> q[t + 2] == k[t]
  {
  }

  /** No placeholder starts inside a `{{k}}` and ends after it. */
  lemma NoStraddleAfter(k: string, b: string, k2: string)
    requires IsTemplateKey(k) && IsTemplateKey(k2)
    ensures NoStraddle(Placeholder(k), b, Placeholder(k2))
  {
    var q, p := Placeholder(k), Placeholder(k2);
    PlaceholderChars(k);
    PlaceholderChars(k2);
    forall i | 0 <= i < |q| < i + |p|
      ensures !OccursAt(q + b, p, i)
    {
      if i + |p| <= |q + b| {
        var w := (q + b)[i..i + |p|];
        if i == 0 {
          assert w[|k| + 2] == q[|k| + 2];
          assert p[|k| + 2] == k2[|k|];
        } else if i == 1 {
          assert w[1] == q[2] == k[0];
        } else {
          assert w[0] == q[i];
          PlaceholderInnerNotBrace(k, i);
        }
      }
    }
  }

  /** A text opening with `{{k}}` keeps it when another key's placeholder is replaced. */
  lemma ReplaceAllPast(k: string, b: string, k2: string, v: string)
    requires IsTemplateKey(k) && IsTemplateKey(k2) && k != k2
    ensures ReplaceAll(Placeholder(k) + b, Placeholder(k2), v) == Placeholder(k) + ReplaceAll(b, Placeholder(k2), v)
  {
    var q, p := Placeholder(k), Placeholder(k2);
    NoStraddleAfter(k, b, k2);
    ReplaceAllSplits(q, b, p, v);
    PlaceholderNotInOther(k, k2);
    ReplaceAllAbsent(q, p, v);
  }

  /** Around a `{{k}}`, replacing another key's placeholder acts on each side separately. */
  lemma ReplaceAllAround(a: string, k: string, b: string, k2: string, v: string)
    requires IsTemplateKey(k) && IsTemplateKey(k2) && k != k2
    ensures ReplaceAll(a + Placeholder(k) + b, Placeholder(k2), v)
         == ReplaceAll(a, Placeholder(k2), v) + Placeholder(k) + ReplaceAll(b, Placeholder(k2), v)
  {
    var q, p := Placeholder(k), Placeholder(k2);
    assert a + q + b == a + (q + b);
    NoStraddleBefore(a, k, b, k2);
    ReplaceAllSplits(a, q + b, p, v);
    ReplaceAllPast(k, b, k2, v);
  }

  /**
   * A placeholder whose key the record does not supply is left in the text untouched, wherever
   * it stands: the text around it is substituted as if the placeholder were not there.
   */
  lemma {:induction false} AbsentKeyUntouchedAnywhere(a: string, k: string, b: string, vars: Vars)
    requires ValidVars(vars) && IsTemplateKey(k)
    requires forall i :: 0 <= i < |vars| ==> vars[i].0 != k
    ensures Substitute(a + Placeholder(k) + b, vars) == Substitute(a, vars) + Placeholder(k) + Substitute(b, vars)
    decreases |vars|
  {
    if vars != [] {
      var p, v := Placeholder(vars[0].0), ValueText(vars[0].1);
      ReplaceAllAround(a, k, b, vars[0].0, v);
      var tail := vars[1..];
      assert forall i :: 0 <= i < |tail| ==> tail[i] == vars[i + 1];
      assert ValidVars(tail);
      AbsentKeyUntouchedAnywhere(ReplaceAll(a, p, v), k, ReplaceAll(b, p, v), tail);
    }
  }
}
