/** Route blocking by feature flags (camp44/middleware/feature_flags.py). */
module FeatureFlags {

  const WILDCARD := "{app_id}"

  // ---------------------------------------------------------------------------------------
  // Strings.
  // ---------------------------------------------------------------------------------------

  predicate Contains(s: string, t: string) {
    t <= s || (s != "" && Contains(s[1..], t))
  }

  predicate SlashFree(s: string) {
    '/' !in s
  }

  /** The segments once one more character comes first. */
  function Grow(c: char, parts: seq<string>): (more: seq<string>)
    requires |parts| >= 1
    ensures |more| >= 1
  {
    if c == '/' then [""] + parts else [[c] + parts[0]] + parts[1..]
  }

  /** `s.split("/")`. */
  function Split(s: string): (parts: seq<string>)
    ensures |parts| >= 1
  {
    if s == "" then [""] else Grow(s[0], Split(s[1..]))
  }

  function Join(parts: seq<string>): string
    requires |parts| >= 1
  {
    if |parts| == 1 then parts[0] else parts[0] + ("/" + Join(parts[1..]))
  }

  // ---------------------------------------------------------------------------------------
  // The matcher.
  // ---------------------------------------------------------------------------------------

  /** Every segment of the pattern is the wildcard or equals the path's. */
  predicate SegmentsMatch(pattern: seq<string>, path: seq<string>) {
    |path| >= |pattern| && forall i | 0 <= i < |pattern| :: pattern[i] == WILDCARD || pattern[i] == path[i]
  }

  predicate Blocks(prefix: string, path: string) {
    if Contains(prefix, WILDCARD) then SegmentsMatch(Split(prefix), Split(path)) else prefix <= path
  }

  /** `_matches_blocked`. */
  method MatchesBlocked(path: string, blocked: seq<string>) returns (hit: bool)
    ensures hit <==> exists i :: 0 <= i < |blocked| && Blocks(blocked[i], path)
  {
    for n := 0 to |blocked|
      invariant forall i | 0 <= i < n :: !Blocks(blocked[i], path)
    {
      var prefix := blocked[n];
      if Contains(prefix, WILDCARD) {
        var pattern, segments := Split(prefix), Split(path);
        if |segments| >= |pattern| {
          var matched := true;
          for i := 0 to |pattern|
            invariant matched
            invariant forall k | 0 <= k < i :: pattern[k] == WILDCARD || pattern[k] == segments[k]
          {
            if pattern[i] == WILDCARD {
              continue;
            }
            if pattern[i] != segments[i] {
              matched := false;
              break;
            }
          }
          if matched {
            assert SegmentsMatch(pattern, segments);
            return true;
          }
        }
      } else if prefix <= path {
        return true;
      }
    }
    return false;
  }

  // ---------------------------------------------------------------------------------------
  // The flags.
  // ---------------------------------------------------------------------------------------

  datatype Flag =
    | Functions | Metering | DemoBooking | Base44Proxy | Bulk | Admin | Passkey | Oidc
    | Integrations | Entities | Public | Apps | Stripe

  const APPS := "/apps"
  const API_APPS := "/api/apps"

  /** The routes of an app's own resource: "/apps/{app_id}/..." and "/api/apps/{app_id}/...". */
  function OfApp(resource: string): seq<string> {
    [APPS + "/" + WILDCARD + "/" + resource, API_APPS + "/" + WILDCARD + "/" + resource]
  }

  /** `_FLAG_ROUTES`. */
  function Routes(flag: Flag): seq<string> {
    match flag
    case Functions => ["/functions", "/api/functions"]
    case Metering => ["/metering", "/api/metering"]
    case DemoBooking => ["/demo", "/api/demo"]
    case Base44Proxy => ["/base44", "/api/base44"]
    case Bulk => OfApp("bulk")
    case Admin => ["/admin", "/api/admin"]
    case Passkey => ["/auth/passkey"]
    case Oidc => ["/auth/oidc"]
    case Integrations => OfApp("integrations")
    case Entities => OfApp("entities")
    case Public => [API_APPS + "/public"]
    case Apps => [APPS, API_APPS]
    case Stripe => ["/stripe", "/api/stripe"]
  }

  const FLAGS: seq<Flag> :=
    [Functions, Metering, DemoBooking, Base44Proxy, Bulk, Admin, Passkey, Oidc, Integrations, Entities, Public, Apps,
     Stripe]

  /** The routes of the flags that are set, flag by flag in the order listed. */
  function RoutesOf(flags: seq<Flag>, enabled: set<Flag>): seq<string> {
    if flags == [] then []
    else
      var last := flags[|flags| - 1];
      RoutesOf(flags[..|flags| - 1], enabled) + if last in enabled then Routes(last) else []
  }

  lemma {:induction false} RoutesOfMembers(flags: seq<Flag>, enabled: set<Flag>)
    ensures forall prefix ::
              prefix in RoutesOf(flags, enabled)
              <==> exists flag :: flag in enabled && flag in flags && prefix in Routes(flag)
    decreases |flags|
  {
    if flags != [] {
      RoutesOfMembers(flags[..|flags| - 1], enabled);
      assert flags == flags[..|flags| - 1] + [flags[|flags| - 1]];
    }
  }

  /** `_build_blocked_prefixes`: exactly the routes of the flags that are set, in the order of the table. */
  method BuildBlockedPrefixes(enabled: set<Flag>) returns (blocked: seq<string>)
    ensures blocked == RoutesOf(FLAGS, enabled)
    ensures forall prefix :: prefix in blocked <==> exists flag :: flag in enabled && prefix in Routes(flag)
  {
    blocked := [];
    for n := 0 to |FLAGS|
      invariant blocked == RoutesOf(FLAGS[..n], enabled)
    {
      if FLAGS[n] in enabled {
        blocked := blocked + Routes(FLAGS[n]);
      }
      assert FLAGS[..n + 1][..n] == FLAGS[..n];
    }
    assert FLAGS[..|FLAGS|] == FLAGS;
    RoutesOfMembers(FLAGS, enabled);
    forall flag: Flag ensures flag in FLAGS { EveryFlagIsListed(flag); }
  }

  lemma EveryFlagIsListed(flag: Flag)
    ensures flag in FLAGS
  {
    match flag
    case Functions => assert FLAGS[0] == flag;
    case Metering => assert FLAGS[1] == flag;
    case DemoBooking => assert FLAGS[2] == flag;
    case Base44Proxy => assert FLAGS[3] == flag;
    case Bulk => assert FLAGS[4] == flag;
    case Admin => assert FLAGS[5] == flag;
    case Passkey => assert FLAGS[6] == flag;
    case Oidc => assert FLAGS[7] == flag;
    case Integrations => assert FLAGS[8] == flag;
    case Entities => assert FLAGS[9] == flag;
    case Public => assert FLAGS[10] == flag;
    case Apps => assert FLAGS[11] == flag;
    case Stripe => assert FLAGS[12] == flag;
  }

  ghost predicate FlagBlocks(flag: Flag, path: string) {
    exists prefix :: prefix in Routes(flag) && Blocks(prefix, path)
  }

  /** The middleware answers 410 for the path. */
  ghost predicate Gone(enabled: set<Flag>, path: string) {
    exists flag :: flag in enabled && FlagBlocks(flag, path)
  }

  /** The prefixes built once and matched for each request. */
  method Dispatch(enabled: set<Flag>, path: string) returns (gone: bool)
    ensures gone <==> Gone(enabled, path)
  {
    var blocked := BuildBlockedPrefixes(enabled);
    gone := MatchesBlocked(path, blocked);
    if gone {
      var i :| 0 <= i < |blocked| && Blocks(blocked[i], path);
      assert blocked[i] in blocked;
      var flag :| flag in enabled && blocked[i] in Routes(flag);
      assert FlagBlocks(flag, path);
    } else {
      forall flag | flag in enabled ensures !FlagBlocks(flag, path) {
        forall prefix | prefix in Routes(flag) ensures !Blocks(prefix, path) {
          assert prefix in blocked;
        }
      }
    }
  }

  // ---------------------------------------------------------------------------------------
  // Splitting and joining.
  // ---------------------------------------------------------------------------------------

  /** A character put before the first segment comes before the joined text. */
  lemma JoinExtendsFirst(c: char, first: string, parts: seq<string>)
    requires |parts| >= 1 && parts[0] == [c] + first
    ensures Join(parts) == [c] + Join([first] + parts[1..])
  {
    var rest := parts[1..];
    assert ([first] + rest)[1..] == rest;
    if rest != [] {
      var tail := "/" + Join(rest);
      assert ([c] + first) + tail == [c] + (first + tail);
    }
  }

  /** An empty first segment leaves just its slash. */
  lemma JoinEmptyFirst(parts: seq<string>)
    requires |parts| >= 1
    ensures Join([""] + parts) == "/" + Join(parts)
  {
    var tail := "/" + Join(parts);
    assert ([""] + parts)[1..] == parts;
    assert "" + tail == tail;
  }

  lemma {:induction false} JoinSplit(s: string)
    ensures Join(Split(s)) == s
    decreases |s|
  {
    if s != "" {
      JoinSplit(s[1..]);
      var parts := Split(s[1..]);
      if s[0] == '/' {
        JoinEmptyFirst(parts);
      } else {
        JoinExtendsFirst(s[0], parts[0], Grow(s[0], parts));
        assert [parts[0]] + parts[1..] == parts;
      }
      assert s == [s[0]] + s[1..];
    }
  }

  lemma {:induction false} SplitHasNoSlash(s: string)
    ensures forall i | 0 <= i < |Split(s)| :: SlashFree(Split(s)[i])
    decreases |s|
  {
    if s != "" { SplitHasNoSlash(s[1..]); }
  }

  lemma {:induction false} SplitSlashFree(v: string)
    requires SlashFree(v)
    ensures Split(v) == [v]
    decreases |v|
  {
    if v != "" {
      assert v[0] in v && forall c | c in v[1..] :: c in v;
      SplitSlashFree(v[1..]);
      assert v == [v[0]] + v[1..];
    }
  }

  lemma GrowAppend(c: char, x: seq<string>, y: seq<string>)
    requires |x| >= 1
    ensures Grow(c, x + y) == Grow(c, x) + y
  {}

  lemma {:induction false} SplitAppend(a: string, b: string)
    ensures Split(a + "/" + b) == Split(a) + Split(b)
    decreases |a|
  {
    if a == "" {
      assert (a + "/" + b)[1..] == b;
    } else {
      var whole := a + "/" + b;
      assert whole[0] == a[0] && whole[1..] == a[1..] + "/" + b;
      SplitAppend(a[1..], b);
      GrowAppend(a[0], Split(a[1..]), Split(b));
    }
  }

  lemma {:induction false} JoinAppend(x: seq<string>, y: seq<string>)
    requires |x| >= 1 && |y| >= 1
    ensures Join(x + y) == Join(x) + "/" + Join(y)
    decreases |x|
  {
    if |x| == 1 {
      assert (x + y)[1..] == y;
    } else {
      JoinAppend(x[1..], y);
      assert (x + y)[1..] == x[1..] + y;
    }
  }

  /** A path has `p` as its leading whole segments. */
  ghost predicate Under(p: string, path: string) {
    path == p || p + "/" <= path
  }

  lemma UnderIffLeadingSegments(p: string, path: string)
    ensures Under(p, path) <==> Split(p) <= Split(path)
  {
    JoinSplit(p);
    JoinSplit(path);
    var n := |Split(p)|;
    if p + "/" <= path {
      var rest := path[|p| + 1..];
      assert path == p + "/" + rest;
      SplitAppend(p, rest);
    }
    if Split(p) <= Split(path) {
      if n < |Split(path)| {
        assert Split(path) == Split(p) + Split(path)[n..];
        JoinAppend(Split(p), Split(path)[n..]);
      } else {
        assert Split(path) == Split(p);
      }
    }
  }

  // ---------------------------------------------------------------------------------------
  // Substitution into the pattern.
  // ---------------------------------------------------------------------------------------

  /** Text that ends at a segment boundary, and text that starts at one. */
  predicate Leads(before: string) {
    before == "" || before[|before| - 1] == '/'
  }

  predicate Trails(after: string) {
    after == "" || after[0] == '/'
  }

  function LeadingParts(before: string): seq<string>
    requires Leads(before)
  {
    if before == "" then [] else Split(before[..|before| - 1])
  }

  function TrailingParts(after: string): seq<string>
    requires Trails(after)
  {
    if after == "" then [] else Split(after[1..])
  }

  lemma SplitLead(before: string, rest: string)
    requires Leads(before)
    ensures Split(before + rest) == LeadingParts(before) + Split(rest)
  {
    if before == "" {
      assert before + rest == rest;
    } else {
      SplitAppend(before[..|before| - 1], rest);
      assert before + rest == before[..|before| - 1] + "/" + rest;
    }
  }

  lemma SplitTrail(value: string, after: string)
    requires Trails(after) && SlashFree(value)
    ensures Split(value + after) == [value] + TrailingParts(after)
  {
    SplitSlashFree(value);
    if after == "" {
      assert value + after == value;
    } else {
      SplitAppend(value, after[1..]);
      assert value + after == value + "/" + after[1..];
    }
  }

  lemma SplitAround(before: string, value: string, after: string)
    requires Leads(before) && Trails(after) && SlashFree(value)
    ensures Split(before + value + after) == LeadingParts(before) + [value] + TrailingParts(after)
  {
    SplitTrail(value, after);
    SplitLead(before, value + after);
    assert before + value + after == before + (value + after);
  }

  lemma {:induction false} ContainsMiddle(a: string, t: string, b: string)
    ensures Contains(a + t + b, t)
    decreases |a|
  {
    if a == "" {
      assert a + t + b == t + b;
    } else {
      ContainsMiddle(a[1..], t, b);
      assert (a + t + b)[1..] == a[1..] + t + b;
    }
  }

  /** Python's `in`: the text has the other somewhere inside. */
  lemma {:induction false} ContainsIff(s: string, t: string)
    ensures Contains(s, t) <==> exists a, b :: s == a + t + b
    decreases |s|
  {
    if Contains(s, t) {
      var a, b := SplitAtMatch(s, t);
    }
    forall a, b | s == a + t + b ensures Contains(s, t) { ContainsMiddle(a, t, b); }
  }

  lemma {:induction false} SplitAtMatch(s: string, t: string) returns (a: string, b: string)
    requires Contains(s, t)
    ensures s == a + t + b
    decreases |s|
  {
    if t <= s {
      a, b := "", s[|t|..];
      assert s == t + b && "" + t == t;
    } else {
      a, b := SplitAtMatch(s[1..], t);
      assert s == [s[0]] + s[1..] && [s[0]] + (a + t + b) == [s[0]] + a + t + b;
      a := [s[0]] + a;
    }
  }

  /** Matching segment by segment is having some value in the wildcard's place. */
  lemma SegmentsMatchIff(lead: seq<string>, trail: seq<string>, parts: seq<string>)
    requires WILDCARD !in lead && WILDCARD !in trail
    ensures SegmentsMatch(lead + [WILDCARD] + trail, parts)
            <==> |parts| > |lead| && lead + [parts[|lead|]] + trail <= parts
  {
    var pattern, k := lead + [WILDCARD] + trail, |lead|;
    assert forall i | 0 <= i < k :: pattern[i] == lead[i];
    assert forall i | k < i < |pattern| :: pattern[i] == trail[i - k - 1];
    if |parts| > k {
      var filled := lead + [parts[k]] + trail;
      assert forall i | 0 <= i < |pattern| && i != k :: filled[i] == pattern[i] && pattern[i] != WILDCARD;
      if SegmentsMatch(pattern, parts) {
        assert forall i | 0 <= i < |filled| :: filled[i] == parts[i];
      }
      if filled <= parts {
        assert forall i | 0 <= i < |filled| :: filled[i] == parts[i];
      }
    }
  }

  /** A pattern with the wildcard as one whole segment blocks exactly the paths at or below the
      pattern with some slash-free value in place of the wildcard. */
  lemma WildcardIsSubstitution(before: string, after: string, path: string)
    requires Leads(before) && Trails(after)
    requires WILDCARD !in LeadingParts(before) && WILDCARD !in TrailingParts(after)
    ensures Blocks(before + WILDCARD + after, path)
            <==> exists value: string :: SlashFree(value) && Under(before + value + after, path)
  {
    ContainsMiddle(before, WILDCARD, after);
    SplitAround(before, WILDCARD, after);
    SplitHasNoSlash(path);
    var lead, trail, parts := LeadingParts(before), TrailingParts(after), Split(path);
    SegmentsMatchIff(lead, trail, parts);
    if SegmentsMatch(lead + [WILDCARD] + trail, parts) {
      var value := parts[|lead|];
      SplitAround(before, value, after);
      UnderIffLeadingSegments(before + value + after, path);
      assert SlashFree(value) && Under(before + value + after, path);
    }
    forall value: string | SlashFree(value) && Under(before + value + after, path)
      ensures SegmentsMatch(lead + [WILDCARD] + trail, parts)
    {
      SplitAround(before, value, after);
      UnderIffLeadingSegments(before + value + after, path);
      assert (lead + [value] + trail)[|lead|] == value;
    }
  }

  // ---------------------------------------------------------------------------------------
  // The apps flag covers the flags below it.
  // ---------------------------------------------------------------------------------------

  lemma {:induction false} ContainsFirst(s: string, t: string)
    requires t != "" && Contains(s, t)
    ensures t[0] in s
    decreases |s|
  {
    if !(t <= s) { ContainsFirst(s[1..], t); }
  }

  /** A wildcard pattern only blocks paths that start as the pattern does. */
  lemma WildcardKeepsStart(before: string, after: string, path: string)
    requires Leads(before) && Trails(after)
    requires WILDCARD !in LeadingParts(before) && WILDCARD !in TrailingParts(after)
    requires Blocks(before + WILDCARD + after, path)
    ensures before <= path
  {
    WildcardIsSubstitution(before, after, path);
    var value :| SlashFree(value) && Under(before + value + after, path);
    assert before <= before + value + after;
  }

  lemma PlainPrefixBlocks(prefix: string, path: string)
    requires '{' !in prefix
    ensures Blocks(prefix, path) <==> prefix <= path
  {
    if Contains(prefix, WILDCARD) { ContainsFirst(prefix, WILDCARD); }
  }

  lemma {:induction false} SplitKeepsLetters(s: string, i: nat, c: char)
    requires i < |Split(s)| && c in Split(s)[i]
    ensures c in s
    decreases |s|
  {
    if s != "" {
      var rest := Split(s[1..]);
      if s[0] == '/' { SplitKeepsLetters(s[1..], i - 1, c); }
      else if i > 0 || c in rest[0] { SplitKeepsLetters(s[1..], i, c); }
    }
  }

  /** Text without a brace has no wildcard segment. */
  lemma NoBraceNoWildcard(s: string)
    requires '{' !in s
    ensures WILDCARD !in Split(s)
  {
    if WILDCARD in Split(s) {
      var i :| 0 <= i < |Split(s)| && Split(s)[i] == WILDCARD;
      assert WILDCARD[0] == '{';
      SplitKeepsLetters(s, i, '{');
    }
  }

  lemma AppsPatternIsUnderApps(root: string, tail: string, path: string)
    requires '{' !in root && '{' !in tail
    requires Blocks(root + "/" + WILDCARD + "/" + tail, path)
    ensures root <= path
  {
    NoBraceNoWildcard(root);
    NoBraceNoWildcard(tail);
    assert (root + "/")[..|root|] == root && ("/" + tail)[1..] == tail;
    assert root + "/" + WILDCARD + "/" + tail == (root + "/") + WILDCARD + ("/" + tail);
    WildcardKeepsStart(root + "/", "/" + tail, path);
    assert root <= root + "/";
  }

  lemma ResourceIsUnderApps(resource: string, prefix: string, path: string)
    requires '{' !in resource && prefix in OfApp(resource) && Blocks(prefix, path)
    ensures APPS <= path || API_APPS <= path
  {
    if prefix == OfApp(resource)[0] { AppsPatternIsUnderApps(APPS, resource, path); }
    else { AppsPatternIsUnderApps(API_APPS, resource, path); }
  }

  /** Each route of the four flags is below a route of the apps flag. */
  lemma RouteIsUnderApps(flag: Flag, prefix: string, path: string)
    requires flag.Bulk? || flag.Entities? || flag.Integrations? || flag.Public?
    requires prefix in Routes(flag) && Blocks(prefix, path)
    ensures APPS <= path || API_APPS <= path
  {
    match flag
    case Bulk => ResourceIsUnderApps("bulk", prefix, path);
    case Entities => ResourceIsUnderApps("entities", prefix, path);
    case Integrations => ResourceIsUnderApps("integrations", prefix, path);
    case Public =>
      PlainPrefixBlocks(prefix, path);
      assert API_APPS <= API_APPS + "/public";
  }

  lemma CoveredByApps(flag: Flag, path: string)
    requires flag.Bulk? || flag.Entities? || flag.Integrations? || flag.Public?
    requires FlagBlocks(flag, path)
    ensures FlagBlocks(Apps, path)
  {
    var prefix :| prefix in Routes(flag) && Blocks(prefix, path);
    RouteIsUnderApps(flag, prefix, path);
    PlainPrefixBlocks(APPS, path);
    PlainPrefixBlocks(API_APPS, path);
    assert Routes(Apps)[0] == APPS && Routes(Apps)[1] == API_APPS;
  }

  /** With the apps flag set, the bulk, entities, integrations and public flags change nothing. */
  lemma AppsFlagSubsumes(enabled: set<Flag>, more: set<Flag>, path: string)
    requires Apps in enabled
    requires enabled <= more
    requires forall flag | flag in more && flag !in enabled ::
               flag.Bulk? || flag.Entities? || flag.Integrations? || flag.Public?
    ensures Gone(more, path) <==> Gone(enabled, path)
  {
    forall flag | flag in more && flag !in enabled && FlagBlocks(flag, path) ensures FlagBlocks(Apps, path) {
      CoveredByApps(flag, path);
    }
  }
}
