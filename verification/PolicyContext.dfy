/** The authentication context of a request, and permission matching. */
module PolicyContext {
  import opened Options

  /** `role` is the user's role in the active organisation; evaluation is not given it. */
  datatype Context = Context(
    userId: Option<string>,
    orgId: Option<string>,
    permissions: seq<string>,
    email: Option<string>,
    sessionId: Option<string>,
    role: Option<string>)
  {
    predicate HasPermission(permission: string) {
      exists i | 0 <= i < |permissions| :: Grants(permissions[i], permission)
    }

    predicate IsAuthenticated() {
      userId.Some?
    }

    /** Ids are UUIDs; like a session id they are written into SQL unescaped. */
    predicate IdsHaveNoQuote() {
      && (userId.Some? ==> '\'' !in userId.value)
      && (orgId.Some? ==> '\'' !in orgId.value)
      && (sessionId.Some? ==> '\'' !in sessionId.value)
    }
  }

  /** The parts between colons; there is always at least one. */
  function Segments(s: string): (parts: seq<string>)
    ensures |parts| > 0
  {
    if s == "" then [""]
    else if s[0] == ':' then [""] + Segments(s[1..])
    else var rest := Segments(s[1..]); [[s[0]] + rest[0]] + rest[1..]
  }

  predicate SegmentMatch(pattern: string, permission: string) {
    && |Segments(pattern)| == |Segments(permission)|
    && forall i | 0 <= i < |Segments(pattern)| ::
         Segments(pattern)[i] == "*" || Segments(pattern)[i] == Segments(permission)[i]
  }

  predicate Grants(held: string, permission: string) {
    held == "*" || held == permission || SegmentMatch(held, permission)
  }

  method MatchesPermissionPattern(pattern: string, permission: string) returns (r: bool)
    ensures r <==> SegmentMatch(pattern, permission)
    ensures r <==> exists words :: Generalises(words, Segments(permission)) && Unsegment(words) == pattern
  {
    SegmentMatchIff(pattern, permission);
    var patternParts := Segments(pattern);
    var permParts := Segments(permission);
    if |patternParts| != |permParts| {
      return false;
    }
    for i := 0 to |patternParts|
      invariant forall j | 0 <= j < i :: patternParts[j] == "*" || patternParts[j] == permParts[j]
    {
      if patternParts[i] != "*" && patternParts[i] != permParts[i] {
        return false;
      }
    }
    return true;
  }

  method HasPermission(ctx: Context, permission: string) returns (r: bool)
    ensures r <==> ctx.HasPermission(permission)
    ensures r <==> "*" in ctx.permissions ||
                   exists words :: Generalises(words, Segments(permission)) && Unsegment(words) in ctx.permissions
  {
    UnsegmentSegments(permission);
    GrantedIff(ctx, Segments(permission));
    for i := 0 to |ctx.permissions|
      invariant forall j | 0 <= j < i :: !Grants(ctx.permissions[j], permission)
    {
      var p := ctx.permissions[i];
      if p == "*" || p == permission {
        return true;
      }
      var matched := MatchesPermissionPattern(p, permission);
      if matched {
        return true;
      }
    }
    return false;
  }

  /** More permissions never revoke one. */
  predicate Extends(more: Context, less: Context) {
    && more.(permissions := less.permissions) == less
    && forall i | 0 <= i < |less.permissions| :: less.permissions[i] in more.permissions
  }

  lemma PermissionsGrow(more: Context, less: Context, permission: string)
    requires Extends(more, less) && less.HasPermission(permission)
    ensures more.HasPermission(permission)
  {
    var i :| 0 <= i < |less.permissions| && Grants(less.permissions[i], permission);
    var j :| 0 <= j < |more.permissions| && more.permissions[j] == less.permissions[i];
  }

  // Segment matching orders permission patterns by generality.

  lemma SegmentMatchTransitive(p: string, q: string, r: string)
    requires SegmentMatch(p, q) && SegmentMatch(q, r)
    ensures SegmentMatch(p, r)
  {
    forall i | 0 <= i < |Segments(p)|
      ensures Segments(p)[i] == "*" || Segments(p)[i] == Segments(r)[i]
    {
      assert Segments(p)[i] == "*" || Segments(p)[i] == Segments(q)[i];
    }
  }

  // The auth service matches by prefix instead.

  predicate PrefixMatch(pattern: string, required: string) {
    if pattern == "*" then true
    else if EndsWithWildcard(pattern) then pattern[..|pattern| - 1] <= required
    else pattern == required
  }

  predicate EndsWithWildcard(pattern: string) {
    |pattern| >= 2 && pattern[|pattern| - 2..] == ":*"
  }

  lemma PrefixMatchTransitive(p: string, q: string, r: string)
    requires PrefixMatch(p, q) && PrefixMatch(q, r)
    ensures PrefixMatch(p, r)
  {
    if p != "*" && EndsWithWildcard(p) {
      var pre := p[..|p| - 1];
      assert pre[|pre| - 1] == p[|p| - 2..][0] == ':';
      assert q[|pre| - 1] == ':';
      if EndsWithWildcard(q) {
        assert q[|q| - 1] == q[|q| - 2..][1] == '*';
        assert pre <= q[..|q| - 1];
      }
    }
  }

  /** A segment holding `*` other than as the last one. */
  predicate OnlyLastWildcard(p: string) {
    forall i | 0 <= i < |Segments(p)| - 1 :: Segments(p)[i] != "*"
  }

  function Unsegment(parts: seq<string>): string {
    if |parts| == 0 then "" else if |parts| == 1 then parts[0] else parts[0] + ":" + Unsegment(parts[1..])
  }

  lemma {:induction false} UnsegmentSegments(s: string)
    ensures Unsegment(Segments(s)) == s
    ensures forall i | 0 <= i < |Segments(s)| :: ':' !in Segments(s)[i]
  {
    if s != "" {
      UnsegmentSegments(s[1..]);
      var rest := Segments(s[1..]);
      if s[0] == ':' {
        assert Segments(s)[1..] == rest;
        assert Unsegment(Segments(s)) == "" + ":" + s[1..];
      } else {
        assert Segments(s)[1..] == rest[1..];
        if |rest| > 1 {
          assert Unsegment(Segments(s)) == [s[0]] + rest[0] + ":" + Unsegment(rest[1..]);
          assert Unsegment(rest) == rest[0] + ":" + Unsegment(rest[1..]);
          assert [s[0]] + rest[0] + ":" + Unsegment(rest[1..]) == [s[0]] + Unsegment(rest);
        } else {
          assert Unsegment(Segments(s)) == [s[0]] + rest[0];
        }
      }
    }
  }

  /** Segmentwise agreement up to a trailing wildcard is agreement up to the wildcard. */
  lemma {:induction false} PartsMatchPrefix(p: seq<string>, r: seq<string>)
    requires |p| == |r| > 1
    requires forall i | 0 <= i < |p| - 1 :: p[i] == r[i]
    requires p[|p| - 1] == "*"
    ensures EndsWithWildcard(Unsegment(p))
    ensures Unsegment(p)[..|Unsegment(p)| - 1] <= Unsegment(r)
    decreases |p|
  {
    var u, v := Unsegment(p), Unsegment(r);
    if |p| == 2 {
      assert p[1..] == ["*"];
      assert u == p[0] + ":" + "*";
      assert u[..|u| - 1] == p[0] + ":";
      assert v == r[0] + ":" + Unsegment(r[1..]);
    } else {
      PartsMatchPrefix(p[1..], r[1..]);
      var u', v' := Unsegment(p[1..]), Unsegment(r[1..]);
      assert u == p[0] + ":" + u' && v == p[0] + ":" + v';
      assert u[|u| - 2..] == u'[|u'| - 2..];
      assert u[..|u| - 1] == p[0] + ":" + u'[..|u'| - 1];
    }
  }

  /** Where wildcards come last only, what the policy matcher grants the service grants too. */
  lemma SegmentMatchIsPrefixMatch(p: string, r: string)
    requires OnlyLastWildcard(p) && SegmentMatch(p, r)
    ensures PrefixMatch(p, r)
  {
    var ps, rs := Segments(p), Segments(r);
    UnsegmentSegments(p);
    UnsegmentSegments(r);
    var n := |ps| - 1;
    if ps[n] != "*" {
      assert ps == rs;
      SamePrefix(p);
    } else if n > 0 {
      assert forall i | 0 <= i < n :: ps[i] == rs[i];
      PartsMatchPrefix(ps, rs);
    } else {
      assert ps == ["*"];
    }
  }

  lemma SamePrefix(p: string)
    ensures PrefixMatch(p, p)
  {
  }

  predicate ColonFree(parts: seq<string>) {
    |parts| > 0 && forall i | 0 <= i < |parts| :: ':' !in parts[i]
  }

  lemma {:induction false} SegmentsUnsegment(parts: seq<string>)
    requires ColonFree(parts)
    ensures Segments(Unsegment(parts)) == parts
    decreases |parts|, |parts[0]|
  {
    var s := Unsegment(parts);
    if parts[0] == "" {
      if |parts| > 1 {
        SegmentsUnsegment(parts[1..]);
        assert s == ":" + Unsegment(parts[1..]);
        assert parts == [""] + parts[1..];
      }
    } else {
      var shorter := parts[0 := parts[0][1..]];
      assert forall i | 0 <= i < |shorter| :: ':' !in shorter[i];
      SegmentsUnsegment(shorter);
      assert shorter[1..] == parts[1..];
      assert s == [parts[0][0]] + Unsegment(shorter) by {
        if |parts| > 1 {
          var tail := ":" + Unsegment(parts[1..]);
          assert parts[0] + ":" + Unsegment(parts[1..]) == parts[0] + tail;
          assert parts[0][1..] + ":" + Unsegment(parts[1..]) == parts[0][1..] + tail;
          assert parts[0] + tail == [parts[0][0]] + (parts[0][1..] + tail);
        }
      }
      assert s[1..] == Unsegment(shorter);
      assert [parts[0][0]] + shorter[0] == parts[0];
      assert parts == [parts[0]] + shorter[1..];
    }
  }

  /** Replacing a wildcard that is not last by an ordinary word shows in the text before its last character. */
  lemma {:induction false} WordDiffers(p: seq<string>, k: nat) returns (at: nat)
    requires k < |p| - 1 && p[k] == "*"
    ensures var u, v := Unsegment(p), Unsegment(p[k := "x"]);
            at < |u| - 1 && at < |v| && u[at] != v[at]
    decreases |p|
  {
    var q := p[k := "x"];
    var u, v := Unsegment(p), Unsegment(q);
    if k == 0 {
      at := 0;
      assert u == "*" + ":" + Unsegment(p[1..]) && v == "x" + ":" + Unsegment(q[1..]);
    } else {
      var deeper := WordDiffers(p[1..], k - 1);
      assert q[1..] == p[1..][k - 1 := "x"];
      at := |p[0]| + 1 + deeper;
      assert u == p[0] + ":" + Unsegment(p[1..]) && v == p[0] + ":" + Unsegment(q[1..]);
    }
  }

  /**
   The two matchers agree in this direction for exactly the patterns whose wildcards come
   last: for any other pattern the policy matcher grants something that the service does not.
   */
  lemma SegmentImpliesPrefixIff(p: string)
    ensures (forall r :: SegmentMatch(p, r) ==> PrefixMatch(p, r)) <==> OnlyLastWildcard(p)
  {
    if OnlyLastWildcard(p) {
      forall r | SegmentMatch(p, r)
        ensures PrefixMatch(p, r)
      {
        SegmentMatchIsPrefixMatch(p, r);
      }
    } else {
      var ps := Segments(p);
      var k :| 0 <= k < |ps| - 1 && ps[k] == "*";
      UnsegmentSegments(p);
      var rs := ps[k := "x"];
      var r := Unsegment(rs);
      SegmentsUnsegment(rs);
      var at := WordDiffers(ps, k);
      assert SegmentMatch(p, r);
      assert !PrefixMatch(p, r);
    }
  }

  /** Holding a permission means holding everything that the permission itself would grant. */
  lemma GrantsTransitive(p: string, q: string, r: string)
    requires Grants(p, q) && Grants(q, r)
    ensures Grants(p, r)
  {
    if SegmentMatch(p, q) && SegmentMatch(q, r) {
      SegmentMatchTransitive(p, q, r);
    } else if SegmentMatch(p, q) && q == "*" {
      OnlyStarMatchesStar(p);
    }
  }

  lemma OnlyStarMatchesStar(p: string)
    requires SegmentMatch(p, "*")
    ensures p == "*"
  {
    UnsegmentSegments(p);
    StarAlone();
    assert Segments(p) == ["*"];
  }

  // What is granted, in terms of the words of a permission.

  /** The pattern is the permission with some of its words, any of them, replaced by `*`. */
  predicate Generalises(pattern: seq<string>, words: seq<string>) {
    |pattern| == |words| && forall i | 0 <= i < |words| :: pattern[i] == "*" || pattern[i] == words[i]
  }

  lemma GeneralisationGrants(ctx: Context, pattern: seq<string>, words: seq<string>)
    requires ColonFree(words) && Generalises(pattern, words)
    requires Unsegment(pattern) in ctx.permissions
    ensures ctx.HasPermission(Unsegment(words))
  {
    SegmentsUnsegment(words);
    SegmentsUnsegment(pattern);
    var i :| 0 <= i < |ctx.permissions| && ctx.permissions[i] == Unsegment(pattern);
    assert Grants(ctx.permissions[i], Unsegment(words));
  }

  lemma SegmentMatchIff(pattern: string, permission: string)
    ensures SegmentMatch(pattern, permission) <==>
            exists words :: Generalises(words, Segments(permission)) && Unsegment(words) == pattern
  {
    UnsegmentSegments(permission);
    UnsegmentSegments(pattern);
    if SegmentMatch(pattern, permission) {
      assert Generalises(Segments(pattern), Segments(permission));
    }
    forall words | Generalises(words, Segments(permission)) && Unsegment(words) == pattern
      ensures SegmentMatch(pattern, permission)
    {
      SegmentsUnsegment(words);
    }
  }

  /** A wildcard in any one place grants whatever stands in that place, the last one included. */
  lemma WildcardGrants(ctx: Context, words: seq<string>, k: nat)
    requires ColonFree(words) && k < |words|
    requires Unsegment(words[k := "*"]) in ctx.permissions
    ensures ctx.HasPermission(Unsegment(words))
  {
    GeneralisationGrants(ctx, words[k := "*"], words);
  }

  /** A permission is granted if and only if `*` is held, or the permission with some words replaced by `*`. */
  lemma GrantedIff(ctx: Context, words: seq<string>)
    requires ColonFree(words)
    ensures ctx.HasPermission(Unsegment(words)) <==>
            "*" in ctx.permissions || exists p :: Generalises(p, words) && Unsegment(p) in ctx.permissions
  {
    SegmentsUnsegment(words);
    if ctx.HasPermission(Unsegment(words)) {
      var i :| 0 <= i < |ctx.permissions| && Grants(ctx.permissions[i], Unsegment(words));
      var held := ctx.permissions[i];
      if held != "*" {
        UnsegmentSegments(held);
        assert Generalises(Segments(held), words);
      }
    }
    if "*" in ctx.permissions {
      var i :| 0 <= i < |ctx.permissions| && ctx.permissions[i] == "*";
      assert Grants(ctx.permissions[i], Unsegment(words));
    }
    forall p | Generalises(p, words) && Unsegment(p) in ctx.permissions
      ensures ctx.HasPermission(Unsegment(words))
    {
      GeneralisationGrants(ctx, p, words);
    }
  }

  /** Every permission has words, so that the two lemmas above cover every request. */
  lemma EveryPermissionHasWords(permission: string) returns (words: seq<string>)
    ensures ColonFree(words) && Unsegment(words) == permission
  {
    words := Segments(permission);
    UnsegmentSegments(permission);
  }

  lemma WordsThree(a: string, b: string, c: string)
    requires ':' !in a && ':' !in b && ':' !in c
    ensures Unsegment([a, b, c]) == a + ":" + b + ":" + c
    ensures ColonFree([a, b, c])
  {
    assert [a, b, c][1..] == [b, c] && [b, c][1..] == [c];
    assert Unsegment([b, c]) == b + ":" + c;
    assert a + ":" + (b + ":" + c) == a + ":" + b + ":" + c;
  }

  /** Permissions of three words as they are written: one wildcard, and none. */
  lemma ThreeWords(ctx: Context, a: string, b: string, c: string, other: string)
    requires ':' !in a && ':' !in b && ':' !in c && ':' !in other
    ensures a + ":" + b + ":*" in ctx.permissions ==> ctx.HasPermission(a + ":" + b + ":" + c)
    ensures a + ":*:" + c in ctx.permissions ==> ctx.HasPermission(a + ":" + b + ":" + c)
    ensures "*:" + b + ":" + c in ctx.permissions ==> ctx.HasPermission(a + ":" + b + ":" + c)
    ensures ctx.permissions == [a + ":" + b + ":" + c] && other != c && c != "*" ==>
              !ctx.HasPermission(a + ":" + b + ":" + other)
    ensures ctx.permissions == [a + ":" + b + ":" + c] && other != a && a != "*" ==>
              !ctx.HasPermission(other + ":" + b + ":" + c)
  {
    hide Unsegment, ColonFree;
    WordsThree(a, b, c);
    OneWildcard(ctx, a, b, c);
    if ctx.permissions == [Unsegment([a, b, c])] {
      if other != c && c != "*" { OtherRefused(ctx, [a, b, c], 2, other); }
      if other != a && a != "*" { OtherRefused(ctx, [a, b, c], 0, other); }
    }
    WordsThree(a, b, other);
    WordsThree(other, b, c);
    assert [a, b, c][2 := other] == [a, b, other] && [a, b, c][0 := other] == [other, b, c];
  }

  lemma OneWildcard(ctx: Context, a: string, b: string, c: string)
    requires ':' !in a && ':' !in b && ':' !in c
    ensures a + ":" + b + ":*" in ctx.permissions ==> ctx.HasPermission(a + ":" + b + ":" + c)
    ensures a + ":*:" + c in ctx.permissions ==> ctx.HasPermission(a + ":" + b + ":" + c)
    ensures "*:" + b + ":" + c in ctx.permissions ==> ctx.HasPermission(a + ":" + b + ":" + c)
  {
    hide Unsegment, ColonFree;
    WordsThree(a, b, c);
    WordsThree(a, b, "*");
    WordsThree(a, "*", c);
    WordsThree("*", b, c);
    assert [a, b, c][2 := "*"] == [a, b, "*"] && a + ":" + b + ":" + "*" == a + ":" + b + ":*";
    assert [a, b, c][1 := "*"] == [a, "*", c] && a + ":" + "*" + ":" + c == a + ":*:" + c;
    assert [a, b, c][0 := "*"] == ["*", b, c] && "*" + ":" + b + ":" + c == "*:" + b + ":" + c;
    if Unsegment([a, b, "*"]) in ctx.permissions { WildcardGrants(ctx, [a, b, c], 2); }
    if Unsegment([a, "*", c]) in ctx.permissions { WildcardGrants(ctx, [a, b, c], 1); }
    if Unsegment(["*", b, c]) in ctx.permissions { WildcardGrants(ctx, [a, b, c], 0); }
  }

  /** A single permission that is held word for word does not grant another word in any place. */
  lemma OtherRefused(ctx: Context, words: seq<string>, k: nat, other: string)
    requires ColonFree(words) && k < |words| && ':' !in other && |words| > 1
    requires other != words[k] && words[k] != "*" && ctx.permissions == [Unsegment(words)]
    ensures !ctx.HasPermission(Unsegment(words[k := other]))
  {
    var asked := words[k := other];
    GrantedIff(ctx, asked);
    SegmentsUnsegment(words);
    StarAlone();
    forall p | Generalises(p, asked)
      ensures Unsegment(p) != Unsegment(words)
    {
      SegmentsUnsegment(p);
      assert p[k] != words[k];
    }
  }

  lemma StarAlone()
    ensures Segments("*") == ["*"]
  {
    var rest := Segments("*"[1..]);
    assert rest == [""];
    assert Segments("*") == [['*'] + rest[0]] + rest[1..];
    assert ['*'] + "" == "*";
  }

  /** Everything is granted to a user exactly when the pattern `*` itself is held. */
  lemma EverythingIff(ctx: Context)
    ensures ctx.HasPermission("*") <==> "*" in ctx.permissions
    ensures "*" in ctx.permissions ==> forall permission :: ctx.HasPermission(permission)
  {
    if ctx.HasPermission("*") {
      var i :| 0 <= i < |ctx.permissions| && Grants(ctx.permissions[i], "*");
      if SegmentMatch(ctx.permissions[i], "*") {
        OnlyStarMatchesStar(ctx.permissions[i]);
      }
    }
    if "*" in ctx.permissions {
      var i :| 0 <= i < |ctx.permissions| && ctx.permissions[i] == "*";
      forall permission
        ensures ctx.HasPermission(permission)
      {
        assert Grants(ctx.permissions[i], permission);
      }
    }
  }

  /** The service's matcher: everything, everything that begins so, or the very same text. */
  lemma PrefixForms(start: string, pattern: string, required: string)
    ensures PrefixMatch("*", required)
    ensures PrefixMatch(start + ":*", required) <==> start + ":" <= required
    ensures pattern != "*" && (forall s: string :: pattern != s + ":*") ==>
              (PrefixMatch(pattern, required) <==> pattern == required)
  {
    var p := start + ":*";
    assert p[|p| - 2..] == ":*" && p[..|p| - 1] == start + ":";
    if EndsWithWildcard(pattern) {
      assert pattern == pattern[..|pattern| - 2] + ":*";
    }
  }
}
