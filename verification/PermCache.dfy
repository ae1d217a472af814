/**
 The Redis permission cache: its keys, the pattern that invalidation scans for, and the
 entries themselves. Lists are stored as they are; their JSON form is not part of this model.
 */
module PermCache {
  import opened Seqs
  import Glob

  const TTL := 60

  // ── Keys ──────────────────────────────────────────────────

  function OrDash(id: string): string {
    if id == "" then "-" else id
  }

  function PermsKey(tenant: string, project: string, user: string): string {
    "perms:" + OrDash(tenant) + ":" + OrDash(project) + ":" + user
  }

  predicate ColonFree(id: string) {
    ':' !in id
  }

  lemma HeadIsColon(a: string, x: string)
    requires ColonFree(a)
    ensures (a + ":" + x)[0] == ':' <==> a == ""
  {
    if a != "" {
      assert (a + ":" + x)[0] == a[0] && a[0] in a;
    }
  }

  /** The first field of a colon-separated text is determined by the text. */
  lemma {:induction false} FirstField(a: string, x: string, b: string, y: string)
    requires ColonFree(a) && ColonFree(b) && a + ":" + x == b + ":" + y
    ensures a == b && x == y
    decreases |a|
  {
    var s, t := a + ":" + x, b + ":" + y;
    HeadIsColon(a, x);
    HeadIsColon(b, y);
    if a == "" {
      assert s[1..] == x && t[1..] == y;
    } else {
      assert s[0] == a[0] && t[0] == b[0];
      assert s[1..] == a[1..] + ":" + x && t[1..] == b[1..] + ":" + y;
      FirstField(a[1..], x, b[1..], y);
      assert a == [a[0]] + a[1..] && b == [b[0]] + b[1..];
    }
  }

  /** Two keys are equal exactly when they name the same user and the same tenant and project, `-` standing for none. */
  lemma KeysEqual(t1: string, p1: string, u1: string, t2: string, p2: string, u2: string)
    requires ColonFree(t1) && ColonFree(p1) && ColonFree(t2) && ColonFree(p2)
    ensures PermsKey(t1, p1, u1) == PermsKey(t2, p2, u2)
            <==> u1 == u2 && OrDash(t1) == OrDash(t2) && OrDash(p1) == OrDash(p2)
    ensures t1 != "-" && p1 != "-" && t2 != "-" && p2 != "-" ==>
              (PermsKey(t1, p1, u1) == PermsKey(t2, p2, u2) <==> (t1, p1, u1) == (t2, p2, u2))
  {
    KeyFields(t1, p1, u1, t2, p2, u2);
    hide PermsKey;
  }

  /** A key lists tenant, project and user in that order: it begins with the text of its tenant, then of its project. */
  lemma KeysByTenant(tenant: string, project: string, user: string, a: string, b: string)
    requires ColonFree(tenant) && ColonFree(project) && ColonFree(a) && ColonFree(b)
    ensures "perms:" + a + ":" <= PermsKey(tenant, project, user) <==> a == if tenant == "" then "-" else tenant
    ensures "perms:" + a + ":" + b + ":" <= PermsKey(tenant, project, user) <==>
      a == (if tenant == "" then "-" else tenant) && b == (if project == "" then "-" else project)
  {
    var t, p := OrDash(tenant), OrDash(project);
    var key := PermsKey(tenant, project, user);
    assert key == "perms:" + t + ":" + (p + ":" + user);
    assert key == "perms:" + t + ":" + p + ":" + user;
    if "perms:" + a + ":" <= key {
      var x := key[|"perms:" + a + ":"|..];
      assert key[6..] == a + ":" + x && key[6..] == t + ":" + (p + ":" + user);
      FirstField(a, x, t, p + ":" + user);
    }
    if "perms:" + a + ":" + b + ":" <= key {
      var y := key[|"perms:" + a + ":" + b + ":"|..];
      assert key[6..] == a + ":" + (b + ":" + y) && key[6..] == t + ":" + (p + ":" + user);
      FirstField(a, b + ":" + y, t, p + ":" + user);
      FirstField(b, y, p, user);
    }
  }

  lemma KeyFields(t1: string, p1: string, u1: string, t2: string, p2: string, u2: string)
    requires ColonFree(t1) && ColonFree(p1) && ColonFree(t2) && ColonFree(p2)
    ensures PermsKey(t1, p1, u1) == PermsKey(t2, p2, u2)
            <==> u1 == u2 && OrDash(t1) == OrDash(t2) && OrDash(p1) == OrDash(p2)
  {
    var k1, k2 := PermsKey(t1, p1, u1), PermsKey(t2, p2, u2);
    var rest1, rest2 := OrDash(p1) + ":" + u1, OrDash(p2) + ":" + u2;
    assert k1[6..] == OrDash(t1) + ":" + rest1;
    assert k2[6..] == OrDash(t2) + ":" + rest2;
    if k1 == k2 {
      FirstField(OrDash(t1), rest1, OrDash(t2), rest2);
      FirstField(OrDash(p1), u1, OrDash(p2), u2);
    }
  }

  // ── The pattern of an invalidation ────────────────────────

  const HEAD := "perms:*:*:"

  function Pattern(text: string): string {
    HEAD + text
  }

  lemma HeadColons()
    ensures Glob.Count(HEAD, ':') == 3
  {
    var t := ":*:*:";
    assert t[1..] == "*:*:" && t[1..][1..] == ":*:" && t[1..][1..][1..] == "*:";
    assert "*:"[1..] == ":" && ":"[1..] == "";
    assert Glob.Count("*:", ':') == 1;
    assert Glob.Count(":*:", ':') == 2;
    assert Glob.Count(t, ':') == 3;
    Glob.CountNone("perms", ':');
    Glob.CountConcat("perms", t, ':');
    assert "perms" + t == HEAD;
  }

  lemma HeadIsStarred()
    ensures Glob.Starred(HEAD)
  {
  }

  lemma KeySlices(front: string, user: string, k: nat)
    requires k <= |front| + 1 + |user|
    ensures k <= |front| ==> (front + ":" + user)[..k] == front[..k]
    ensures k > |front| + 1 ==> (front + ":" + user)[k - 1] in user
  {
    if k > |front| + 1 {
      assert (front + ":" + user)[k - 1] == user[k - |front| - 2];
    }
  }

  /** A pattern of three colons, the last at its end, matches in a key only everything before the user. */
  lemma HeadOfKey(head: string, front: string, user: string, k: nat)
    requires ColonFree(user) && Glob.Count(front, ':') == 2 && k <= |front| + 1 + |user|
    requires Glob.Starred(head + ":") && Glob.Count(head + ":", ':') == 3
    requires Glob.Matches(head + ":", (front + ":" + user)[..k])
    ensures k == |front| + 1
  {
    var key := front + ":" + user;
    KeySlices(front, user, k);
    Glob.LiteralEnd(head, ':', key[..k]);
    Glob.CountPrefix(front, if k <= |front| then k else |front|, ':');
    hide Glob.Matches, Glob.Count;
  }

  lemma HeadMatches(tenant: string, project: string)
    ensures Glob.Matches(HEAD, "perms:" + tenant + ":" + project + ":")
  {
    hide Glob.Matches;
    Glob.PlainMatches(":", ":");
    Glob.StarHead(project, ":", ":");
    Glob.PlainHead(":", "*" + ":", ":" + (project + ":"));
    assert (":" + (project + ":"))[1..] == project + ":";
    Glob.StarHead(tenant, ":" + ("*" + ":"), ":" + (project + ":"));
    var rest, s := "*" + (":" + ("*" + ":")), tenant + (":" + (project + ":"));
    Glob.PlainHead("perms:", rest, "perms:" + s);
    assert ("perms:" + s)[6..] == s;
    assert "perms:" + rest == HEAD;
    assert "perms:" + s == "perms:" + tenant + ":" + project + ":";
  }

  /**
   The pattern an invalidation makes of a text matches a key exactly if the text, itself a
   pattern, matches the key's user, whatever the tenant and project.
   */
  lemma PatternFindsTheUser(tenant: string, project: string, user: string, text: string)
    requires ColonFree(tenant) && ColonFree(project) && ColonFree(user)
    ensures Glob.Matches(Pattern(text), PermsKey(tenant, project, user)) <==> Glob.Matches(text, user)
  {
    var front := "perms:" + OrDash(tenant) + ":" + OrDash(project);
    var key := PermsKey(tenant, project, user);
    assert key == front + ":" + user;
    TwoColons(OrDash(tenant), OrDash(project));
    HeadMatches(OrDash(tenant), OrDash(project));
    HeadColons();
    HeadIsStarred();
    assert HEAD == "perms:*:*" + ":";
    hide Glob.Matches, Glob.Count;
    assert key[..|front| + 1] == front + ":" && key[|front| + 1..] == user;
    if Glob.Matches(Pattern(text), key) {
      var k := Glob.MatchSplits(HEAD, text, key);
      HeadOfKey("perms:*:*", front, user, k);
    }
    if Glob.Matches(text, user) {
      Glob.MatchJoins(HEAD, text, key, |front| + 1);
    }
  }

  lemma TwoColons(t: string, p: string)
    requires ColonFree(t) && ColonFree(p)
    ensures Glob.Count("perms:" + t + ":" + p, ':') == 2
  {
    Glob.CountNone("perms", ':');
    Glob.CountNone(t, ':');
    Glob.CountNone(p, ':');
    assert Glob.Count(":", ':') == 1 by {
      assert ":"[1..] == "";
    }
    Glob.CountConcat("perms", ":", ':');
    assert "perms" + ":" == "perms:";
    Glob.CountConcat("perms:", t, ':');
    Glob.CountConcat("perms:" + t, ":", ':');
    Glob.CountConcat("perms:" + t + ":", p, ':');
  }

  // ── Entries ───────────────────────────────────────────────

  datatype Entry = Entry(value: seq<string>, expires: nat)

  type Entries = map<string, Entry>

  function Lookup(entries: Entries, key: string, now: nat): Option<seq<string>> {
    if key in entries && now < entries[key].expires then Some(entries[key].value) else None
  }

  function Invalidated(entries: Entries, text: string): Entries {
    map k | k in entries && !Glob.Matches(Pattern(text), k) :: entries[k]
  }

  function Listed(pages: seq<set<string>>): set<string> {
    set page, k | page in pages && k in page :: k
  }

  class Cache {
    var now: nat
    var entries: Entries

    constructor ()
      ensures now == 0 && entries == map[]
    {
      now, entries := 0, map[];
    }

    /** A miss if there is no entry, it has expired, or Redis is not there. */
    method GetPerms(tenant: string, project: string, user: string, up: bool) returns (perms: Option<seq<string>>)
      ensures perms == if up then Lookup(entries, PermsKey(tenant, project, user), now) else None
    {
      if !up {
        return None;
      }
      var key := PermsKey(tenant, project, user);
      if key in entries && now < entries[key].expires {
        return Some(entries[key].value);
      }
      return None;
    }

    method SetPerms(tenant: string, project: string, user: string, perms: seq<string>, up: bool)
      modifies `entries
      ensures entries ==
        if up then old(entries)[PermsKey(tenant, project, user) := Entry(perms, now + TTL)] else old(entries)
    {
      if up {
        entries := entries[PermsKey(tenant, project, user) := Entry(perms, now + TTL)];
      }
    }

    /**
     Scans page by page and deletes what each page lists, until the last page or an error.
     A full scan lists every matching key at least once, and a page may repeat or miss keys
     of another: with that guarantee exactly the matching entries go.
     */
    method InvalidatePerms(text: string, pages: seq<set<string>>, readable: nat)
      requires forall k | k in Listed(pages) :: Glob.Matches(Pattern(text), k)
      requires forall k | k in entries && Glob.Matches(Pattern(text), k) :: k in Listed(pages)
      modifies `entries
      ensures entries == old(entries) - Listed(if readable < |pages| then pages[..readable] else pages)
      ensures readable >= |pages| ==> entries == Invalidated(old(entries), text)
    {
      var page := 0;
      while page < |pages|
        invariant page <= |pages| && page <= readable
        invariant entries == old(entries) - Listed(pages[..page])
      {
        if page == readable {
          return;
        }
        assert pages[..page + 1] == pages[..page] + [pages[page]];
        assert Listed(pages[..page + 1]) == Listed(pages[..page]) + pages[page];
        entries := entries - pages[page];
        page := page + 1;
      }
      assert pages[..page] == pages;
    }
  }
}
