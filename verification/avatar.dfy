/**
 * Provider avatar URLs (ui/components/UserAvatar/UserAvatar.utils.ts): each
 * known image host gets a size parameter appended unless the URL already
 * carries one.
 */
module AvatarUtils {
  import opened Prelude
  import opened Strings

  datatype Provider = Google | GitHub | Discord | Facebook | X

  /** The host that identifies each provider's avatars. */
  function Host(p: Provider): (h: string)
  {
    match p
    case Google => "googleusercontent.com"
    case GitHub => "avatars.githubusercontent.com"
    case Discord => "cdn.discordapp.com"
    case Facebook => "platform-lookaside.fbsbx.com"
    case X => "pbs.twimg.com"
  }

  /** A host name has a `.` and neither `?` nor `&`. */
  predicate HostShaped(h: string)
  {
    '.' in h && '?' !in h && '&' !in h
  }

  /** Every provider's host is shaped like a host name. */
  lemma HostShape(p: Provider)
    ensures HostShaped(Host(p))
  {
    match p
    case Google => GoogleHostShape();
    case GitHub => GitHubHostShape();
    case Discord => DiscordHostShape();
    case Facebook => FacebookHostShape();
    case X => XHostShape();
  }

  lemma GoogleHostShape() ensures HostShaped(Host(Google)) { }
  lemma GitHubHostShape() ensures HostShaped(Host(GitHub)) { }
  lemma DiscordHostShape() ensures HostShaped(Host(Discord)) { }
  lemma FacebookHostShape() ensures HostShaped(Host(Facebook)) { }
  lemma XHostShape() ensures HostShaped(Host(X)) { }

  /** The rule order: the first provider whose host the URL contains is used. */
  const Rules: seq<Provider> := [Google, GitHub, Discord, Facebook, X]

  /** Every provider has a rule. */
  lemma RulesCover(p: Provider)
    ensures p in Rules
  {
    match p
    case Google => assert Rules[0] == p;
    case GitHub => assert Rules[1] == p;
    case Discord => assert Rules[2] == p;
    case Facebook => assert Rules[3] == p;
    case X => assert Rules[4] == p;
  }

  /** `rules.find(r => r.match(u))`: the first provider whose host occurs in `u`. */
  function FindRule(u: string, rules: seq<Provider>): (r: Option<Provider>)
    ensures r.Some? ==> r.value in rules && Contains(u, Host(r.value))
    ensures r.Some? ==> exists k :: 0 <= k < |rules| && rules[k] == r.value && FirstMatchAt(u, rules, k)
    ensures r.None? <==> forall p :: p in rules ==> !Contains(u, Host(p))
  {
    if rules == [] then None
    else if Contains(u, Host(rules[0])) then
      assert FirstMatchAt(u, rules, 0);
      Some(rules[0])
    else
      assert forall p :: p in rules ==> p == rules[0] || p in rules[1..];
      var r := FindRule(u, rules[1..]);
      assert r.Some? ==> exists k :: 0 <= k < |rules| && rules[k] == r.value && FirstMatchAt(u, rules, k) by {
        if r.Some? {
          var k :| 0 <= k < |rules[1..]| && rules[1..][k] == r.value && FirstMatchAt(u, rules[1..], k);
          assert FirstMatchAt(u, rules, k + 1) by {
            forall j | 0 <= j < k + 1
              ensures !Contains(u, Host(rules[j]))
            {
              if j > 0 {
                assert rules[j] == rules[1..][j - 1];
              }
            }
          }
        }
      }
      r
  }

  /** No rule before position `k` matches `u`. */
  predicate FirstMatchAt(u: string, rules: seq<Provider>, k: int)
    requires 0 <= k <= |rules|
  {
    forall j :: 0 <= j < k ==> !Contains(u, Host(rules[j]))
  }

  /** Two URLs containing the same hosts select the same rule. */
  lemma {:induction false} FindRuleSameHosts(u: string, v: string, rules: seq<Provider>)
    requires forall p :: Contains(u, Host(p)) <==> Contains(v, Host(p))
    ensures FindRule(u, rules) == FindRule(v, rules)
  {
    if rules != [] {
      FindRuleSameHosts(u, v, rules[1..]);
    }
  }

  // ---------------------------------------------------------------------
  // The query-parameter patterns
  // ---------------------------------------------------------------------

  /** At position `i`, `u` has a `?` or `&`, then `key=`, then a digit when `digit` is set. */
  predicate ParamAt(u: string, i: int, key: string, digit: bool)
  {
    0 <= i && i + |key| + 2 <= |u| && (u[i] == '?' || u[i] == '&')
    && u[i + 1..i + 1 + |key|] == key && u[i + 1 + |key|] == '='
    && (digit ==> i + |key| + 3 <= |u| && IsDigit(u[i + |key| + 2]))
  }

  /** `/[?&]key=\d+/`, or `/[?&]key=/` when `digit` is not set. */
  predicate HasParam(u: string, key: string, digit: bool)
  {
    exists i | 0 <= i < |u| :: ParamAt(u, i, key, digit)
  }

  /** `/=s\d+/`: Google's size suffix inside the path. */
  predicate HasSizeSuffix(u: string)
  {
    exists i | 0 <= i < |u| :: i + 3 <= |u| && u[i] == '=' && u[i + 1] == 's' && IsDigit(u[i + 2])
  }

  /** Whether the URL already carries the provider's size. */
  predicate Sized(p: Provider, u: string)
  {
    match p
    case Google => HasSizeSuffix(u) || HasParam(u, "sz", true)
    case GitHub => HasParam(u, "s", true)
    case Discord => HasParam(u, "size", true)
    case Facebook => HasParam(u, "height", true) || HasParam(u, "width", true)
    case X => HasParam(u, "name", false)
  }

  /** `&` when the URL already has a query, `?` otherwise. */
  function Separator(u: string): (j: char)
    ensures j == '&' <==> '?' in u
    ensures j == '?' || j == '&'
  {
    if '?' in u then '&' else '?'
  }

  /** X's named sizes. */
  function XSizeName(px: nat): (n: string)
    ensures px <= 48 ==> n == "small"
    ensures 48 < px <= 96 ==> n == "normal"
    ensures 96 < px ==> n == "bigger"
  {
    if px <= 48 then "small" else if px <= 96 then "normal" else "bigger"
  }

  /** The text each provider appends after the separator. */
  function SizeQuery(p: Provider, px: nat): (q: string)
    ensures '.' !in q
  {
    var n := NatToString(px);
    assert '.' !in n by {
      assert forall i :: 0 <= i < |n| ==> IsDigit(n[i]);
    }
    match p
    case Google => Param("sz", n)
    case GitHub => Param("s", n)
    case Discord => Param("size", n)
    case Facebook => Param("height", n) + "&" + Param("width", n)
    case X => Param("name", XSizeName(px))
  }

  /** `key=value`. */
  function Param(key: string, value: string): string
  {
    key + "=" + value
  }

  /** One rule's `normalize`: a sized URL is kept, any other gets the size appended. */
  function NormalizeFor(p: Provider, u: string, px: nat): (r: string)
    ensures Sized(p, u) ==> r == u
    ensures !Sized(p, u) ==> r == u + [Separator(u)] + SizeQuery(p, px)
  {
    if Sized(p, u) then u else u + [Separator(u)] + SizeQuery(p, px)
  }

  /** `normalizeAvatarUrl`: the first matching rule's `normalize`, or the URL itself. */
  function NormalizeAvatarUrl(u: string, px: nat): (r: string)
    ensures FindRule(u, Rules).None? ==> r == u
    ensures FindRule(u, Rules).Some? ==> r == NormalizeFor(FindRule(u, Rules).value, u, px)
    ensures StartsWith(r, u)
  {
    match FindRule(u, Rules)
    case None => u
    case Some(p) => NormalizeFor(p, u, px)
  }

  // ---------------------------------------------------------------------
  // Properties
  // ---------------------------------------------------------------------

  /** Appending text that starts with a character foreign to a host and has no `.` creates no occurrence of it. */
  lemma ContainsAppend(u: string, t: string, h: string)
    requires t != [] && t[0] !in h && '.' in h && '.' !in t
    ensures Contains(u + t, h) <==> Contains(u, h)
  {
    if Contains(u, h) {
      var i :| 0 <= i <= |u| && OccursAt(u, h, i);
      assert (u + t)[i..i + |h|] == u[i..i + |h|];
      assert OccursAt(u + t, h, i);
    }
    if Contains(u + t, h) {
      var i :| 0 <= i <= |u + t| && OccursAt(u + t, h, i);
      if i + |h| > |u| {
        NoOccurrenceAcross(u, t, h, i);
      }
      assert u[i..i + |h|] == (u + t)[i..i + |h|];
      assert OccursAt(u, h, i);
    }
  }

  /** An occurrence of such a host cannot reach past the end of `u`. */
  lemma NoOccurrenceAcross(u: string, t: string, h: string, i: int)
    requires t != [] && t[0] !in h && '.' in h && '.' !in t
    requires 0 <= i && |u| < i + |h| <= |u + t|
    ensures (u + t)[i..i + |h|] != h
  {
    var w := (u + t)[i..i + |h|];
    if i <= |u| {
      assert w[|u| - i] == t[0];
      assert w[|u| - i] !in h;
    } else {
      var k :| 0 <= k < |h| && h[k] == '.';
      assert w[k] == t[i + k - |u|];
      assert w[k] in t;
    }
  }

  /** After its size is appended, a URL counts as sized for the same provider. */
  lemma AppendedSized(p: Provider, u: string, px: nat)
    ensures Sized(p, u + [Separator(u)] + SizeQuery(p, px))
  {
    var n := NatToString(px);
    assert IsDigit(n[0]);
    match p
    case Google => ParamAppended(u, "sz", n, [], true);
    case GitHub => ParamAppended(u, "s", n, [], true);
    case Discord => ParamAppended(u, "size", n, [], true);
    case Facebook =>
      assert SizeQuery(p, px) == Param("height", n) + ("&" + Param("width", n));
      ParamAppended(u, "height", n, "&" + Param("width", n), true);
    case X => ParamAppended(u, "name", XSizeName(px), [], false);
  }

  /** `key=` right after the separator is found by the parameter pattern, whatever follows. */
  lemma ParamAppended(u: string, key: string, value: string, tail: string, digit: bool)
    requires digit ==> value != [] && IsDigit(value[0])
    ensures HasParam(u + [Separator(u)] + (Param(key, value) + tail), key, digit)
    ensures tail == [] ==> HasParam(u + [Separator(u)] + Param(key, value), key, digit)
  {
    var r := u + [Separator(u)] + (Param(key, value) + tail);
    var i := |u|;
    assert r[i + 1..i + 1 + |key|] == key;
    assert r[i + 1 + |key|] == '=';
    if digit {
      assert r[i + |key| + 2] == value[0];
    }
    assert ParamAt(r, i, key, digit);
    if tail == [] {
      assert Param(key, value) + tail == Param(key, value);
    }
  }

  /** A URL with its size appended selects the same rule as before. */
  lemma AppendedSameRule(p: Provider, u: string, px: nat)
    ensures FindRule(u + [Separator(u)] + SizeQuery(p, px), Rules) == FindRule(u, Rules)
  {
    var t := [Separator(u)] + SizeQuery(p, px);
    assert u + [Separator(u)] + SizeQuery(p, px) == u + t;
    assert '.' !in t by {
      assert forall c :: c in t ==> c == t[0] || c in SizeQuery(p, px);
    }
    forall q: Provider
      ensures Contains(u + t, Host(q)) <==> Contains(u, Host(q))
    {
      HostShape(q);
      ContainsAppend(u, t, Host(q));
    }
    FindRuleSameHosts(u + t, u, Rules);
  }

  /** Normalizing twice is normalizing once. */
  lemma NormalizeIdempotent(u: string, px: nat)
    ensures NormalizeAvatarUrl(NormalizeAvatarUrl(u, px), px) == NormalizeAvatarUrl(u, px)
  {
    match FindRule(u, Rules)
    case None =>
    case Some(p) =>
      if !Sized(p, u) {
        var r := u + [Separator(u)] + SizeQuery(p, px);
        assert NormalizeAvatarUrl(u, px) == r;
        AppendedSameRule(p, u, px);
        AppendedSized(p, u, px);
        assert NormalizeFor(p, r, px) == r;
      }
  }

  /** `isProviderAvatar`: a non-empty URL containing one of the hosts. */
  function IsProviderAvatar(url: Option<string>): (b: bool)
    ensures b <==> url.Some? && FindRule(url.value, Rules).Some?
  {
    if url.None? || url.value == [] then false
    else
      var b := exists p | p in Rules :: Contains(url.value, Host(p));
      assert b <==> FindRule(url.value, Rules).Some?;
      b
  }

  /** Only provider avatars are rewritten, and a provider avatar without its size always is. */
  lemma NormalizeOnlyProviders(u: string, px: nat)
    ensures !IsProviderAvatar(Some(u)) ==> NormalizeAvatarUrl(u, px) == u
    ensures IsProviderAvatar(Some(u)) && !Sized(FindRule(u, Rules).value, u) ==> |NormalizeAvatarUrl(u, px)| > |u|
  {
    if u == [] {
      forall p | p in Rules
        ensures !Contains(u, Host(p))
      {
        HostShape(p);
      }
    }
  }
}
