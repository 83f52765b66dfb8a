/**
 * The database URI the app is configured with: `DATABASE_URL` with every
 * "postgres://" rewritten to "postgresql://" (the scheme name SQLAlchemy
 * accepts), or a local SQLite file when the variable is unset.
 */
module Config {
  import opened Wrappers

  const OLD_SCHEME: string := "postgres://"
  const NEW_SCHEME: string := "postgresql://"
  const SQLITE_FALLBACK: string := "sqlite:////tmp/test.db"

  /** "postgres://" starts at position `i` of `s`. */
  predicate OccursAt(s: string, i: int)
  {
    0 <= i && i + |OLD_SCHEME| <= |s| && s[i..i + |OLD_SCHEME|] == OLD_SCHEME
  }

  predicate Occurs(s: string)
  {
    exists i :: 0 <= i <= |s| && OccursAt(s, i)
  }

  /**
   * `s.replace("postgres://", "postgresql://")`: scan left to right and
   * replace every non-overlapping occurrence.
   */
  function ReplaceScheme(s: string): (r: string)
    ensures |r| >= |s|
    decreases |s|
  {
    if |s| < |OLD_SCHEME| then s
    else if s[..|OLD_SCHEME|] == OLD_SCHEME then NEW_SCHEME + ReplaceScheme(s[|OLD_SCHEME|..])
    else [s[0]] + ReplaceScheme(s[1..])
  }

  /** The URI handed to SQLAlchemy, from the value of `DATABASE_URL` if it is set. */
  function DatabaseUri(env: Option<string>): (r: string)
    ensures env.None? ==> r == SQLITE_FALLBACK
    ensures env.Some? ==> !Occurs(r)
    ensures env.Some? && !Occurs(env.value) ==> r == env.value
    ensures env.Some? ==> forall k ::
      FirstOccursAt(env.value, k) ==>
        r == env.value[..k] + NEW_SCHEME + ReplaceScheme(env.value[k + |OLD_SCHEME|..])
  {
    match env
    case None => SQLITE_FALLBACK
    case Some(url) =>
      ReplaceLeavesNoOldScheme(url);
      ReplaceIdentity(url);
      ReplaceAtFirstOccurrence(url);
      ReplaceScheme(url)
  }

  /** The leftmost occurrence of "postgres://" in `s` starts at `k`. */
  predicate FirstOccursAt(s: string, k: int)
  {
    OccursAt(s, k) && forall i :: 0 <= i < k ==> !OccursAt(s, i)
  }

  /**
   * The general step of the rewrite: text before the leftmost occurrence is
   * copied, the occurrence becomes "postgresql://", and the rewrite goes on
   * after it. With ReplaceIdentity this determines the result on every input.
   */
  lemma {:induction false} FirstOccurrence(a: string, b: string)
    requires forall i :: 0 <= i < |a| ==> !OccursAt(a + OLD_SCHEME + b, i)
    ensures ReplaceScheme(a + OLD_SCHEME + b) == a + NEW_SCHEME + ReplaceScheme(b)
    decreases |a|
  {
    if a == [] {
      ReplaceRewritesLeading(b);
      assert a + OLD_SCHEME + b == OLD_SCHEME + b;
    } else {
      var s := a + OLD_SCHEME + b;
      var t := a[1..] + OLD_SCHEME + b;
      assert s == [a[0]] + t;
      assert !OccursAt(s, 0);
      ReplaceCopies(s);
      forall i | 0 <= i < |a[1..]| ensures !OccursAt(t, i) {
        OccursShift([a[0]], t, i + 1);
        OccursUnshift([a[0]], t, i + 1);
      }
      FirstOccurrence(a[1..], b);
      assert a == [a[0]] + a[1..];
    }
  }

  /** A leading "postgres://" becomes "postgresql://" and the rewrite goes on after it. */
  lemma ReplaceRewritesLeading(b: string)
    ensures ReplaceScheme(OLD_SCHEME + b) == NEW_SCHEME + ReplaceScheme(b)
  {
    var s := OLD_SCHEME + b;
    assert s[..|OLD_SCHEME|] == OLD_SCHEME;
    assert s[|OLD_SCHEME|..] == b;
  }

  /** An occurrence in `b` is an occurrence in `a + b`, moved by `|a|`. */
  lemma OccursUnshift(a: string, b: string, i: int)
    requires |a| <= i
    ensures OccursAt(b, i - |a|) ==> OccursAt(a + b, i)
  {
    if i + |OLD_SCHEME| <= |a + b| {
      assert (a + b)[i..i + |OLD_SCHEME|] == b[i - |a|..i - |a| + |OLD_SCHEME|];
    }
  }

  /** FirstOccurrence stated by position: wherever the leftmost occurrence starts. */
  lemma ReplaceAtFirstOccurrence(s: string)
    ensures forall k :: FirstOccursAt(s, k) ==>
      ReplaceScheme(s) == s[..k] + NEW_SCHEME + ReplaceScheme(s[k + |OLD_SCHEME|..])
  {
    forall k | FirstOccursAt(s, k)
      ensures ReplaceScheme(s) == s[..k] + NEW_SCHEME + ReplaceScheme(s[k + |OLD_SCHEME|..])
    {
      var a, b := s[..k], s[k + |OLD_SCHEME|..];
      assert s == a + OLD_SCHEME + b;
      FirstOccurrence(a, b);
    }
  }

  /** A URL without the old scheme name anywhere is left as it is. */
  lemma {:induction false} ReplaceIdentity(s: string)
    ensures !Occurs(s) ==> ReplaceScheme(s) == s
    decreases |s|
  {
    if !Occurs(s) && |s| >= |OLD_SCHEME| {
      assert !OccursAt(s, 0);
      forall i | 0 <= i <= |s[1..]| && OccursAt(s[1..], i) ensures OccursAt(s, i + 1) {
        assert s[i + 1..i + 1 + |OLD_SCHEME|] == s[1..][i..i + |OLD_SCHEME|];
      }
      ReplaceIdentity(s[1..]);
    }
  }

  /** The usual Heroku form: a URL that starts with the old scheme gets the new one. */
  lemma ReplaceHerokuUrl(rest: string)
    requires !Occurs(rest)
    ensures ReplaceScheme(OLD_SCHEME + rest) == NEW_SCHEME + rest
  {
    var s := OLD_SCHEME + rest;
    assert s[..|OLD_SCHEME|] == OLD_SCHEME;
    assert s[|OLD_SCHEME|..] == rest;
    ReplaceIdentity(rest);
  }

  /** An occurrence past the end of `a` in `a + b` is an occurrence in `b`. */
  lemma OccursShift(a: string, b: string, i: int)
    requires |a| <= i
    ensures OccursAt(a + b, i) ==> OccursAt(b, i - |a|)
  {
    if i + |OLD_SCHEME| <= |a + b| {
      assert (a + b)[i..i + |OLD_SCHEME|] == b[i - |a|..i - |a| + |OLD_SCHEME|];
    }
  }

  predicate IsPrefix(w: string, s: string)
  {
    |w| <= |s| && s[..|w|] == w
  }

  /** A prefix of `[c] + u` is `c` followed by a prefix of `u`. */
  lemma PrefixCons(c: char, u: string, w: string)
    requires |w| > 0
    ensures IsPrefix(w, [c] + u) <==> w[0] == c && IsPrefix(w[1..], u)
  {
    if |w| <= |u| + 1 {
      assert ([c] + u)[..|w|] == [c] + u[..|w| - 1];
    }
  }

  /** Where no occurrence starts, the rewrite copies the first character. */
  lemma ReplaceCopies(t: string)
    requires |t| >= |OLD_SCHEME| && t[..|OLD_SCHEME|] != OLD_SCHEME
    ensures ReplaceScheme(t) == [t[0]] + ReplaceScheme(t[1..])
  {
  }

  /**
   * If the rewritten string begins with `w`, and `w` holds no 'p', then the
   * original already began with `w`: the rewrite only ever writes 'p' first.
   */
  lemma {:induction false} PrefixWithoutP(t: string, w: string)
    requires forall k :: 0 <= k < |w| ==> w[k] != 'p'
    ensures IsPrefix(w, ReplaceScheme(t)) ==> IsPrefix(w, t)
    decreases |t|
  {
    if w == [] || |t| < |OLD_SCHEME| {
    } else if t[..|OLD_SCHEME|] == OLD_SCHEME {
      assert ReplaceScheme(t)[0] == 'p';
    } else {
      ReplaceCopies(t);
      PrefixWithoutP(t[1..], w[1..]);
      PrefixCons(t[0], ReplaceScheme(t[1..]), w);
      PrefixCons(t[0], t[1..], w);
      assert t == [t[0]] + t[1..];
    }
  }

  /** The new scheme name cannot be the start of an occurrence of the old one. */
  lemma NoOccurrenceAfterNewScheme(tail: string)
    requires !Occurs(tail)
    ensures !Occurs(NEW_SCHEME + tail)
  {
    var r := NEW_SCHEME + tail;
    forall i | 0 <= i <= |r| ensures !OccursAt(r, i) {
      if i >= |NEW_SCHEME| {
        OccursShift(NEW_SCHEME, tail, i);
        assert !OccursAt(tail, i - |NEW_SCHEME|);
      } else if i == 0 {
        assert r[8] == 'q';
        assert !OccursAt(r, i);
      } else {
        assert r[i] == NEW_SCHEME[i] != 'p';
        assert !OccursAt(r, i);
      }
    }
  }

  /** A character copied where no occurrence starts cannot begin one in the result. */
  lemma NoOccurrenceAfterCopy(s: string)
    requires |s| >= |OLD_SCHEME| && s[..|OLD_SCHEME|] != OLD_SCHEME
    requires !Occurs(ReplaceScheme(s[1..]))
    ensures !Occurs([s[0]] + ReplaceScheme(s[1..]))
  {
    var tail := ReplaceScheme(s[1..]);
    var r := [s[0]] + tail;
    forall i | 0 <= i <= |r| ensures !OccursAt(r, i) {
      if i >= 1 {
        OccursShift([s[0]], tail, i);
      } else {
        var w := OLD_SCHEME[1..];
        PrefixWithoutP(s[1..], w);
      }
    }
  }

  /** No "postgres://" is left after the rewrite, wherever it stood. */
  lemma {:induction false} ReplaceLeavesNoOldScheme(s: string)
    ensures !Occurs(ReplaceScheme(s))
    decreases |s|
  {
    if |s| < |OLD_SCHEME| {
      assert forall i :: !OccursAt(s, i);
    } else if s[..|OLD_SCHEME|] == OLD_SCHEME {
      ReplaceLeavesNoOldScheme(s[|OLD_SCHEME|..]);
      NoOccurrenceAfterNewScheme(ReplaceScheme(s[|OLD_SCHEME|..]));
    } else {
      ReplaceLeavesNoOldScheme(s[1..]);
      NoOccurrenceAfterCopy(s);
    }
  }
}
