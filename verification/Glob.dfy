/**
 Redis's glob patterns, as its scan matches them against non-empty keys: `*` is any text, `?`
 any character, `[...]` one character of a class, which may be negated, hold ranges and
 escapes, and lack its end, and a backslash makes the next character, if any, literal.
 */
module Glob {

  predicate Between(c: char, a: char, b: char) {
    a <= c <= b || b <= c <= a
  }

  /** Whether the class holds `c`, and the pattern after the class. */
  function Class(p: string, c: char): (bool, string) {
    if p == "" then (false, "")
    else if p[0] == '\\' && |p| >= 2 then
      var (hit, rest) := Class(p[2..], c); (hit || p[1] == c, rest)
    else if p[0] == ']' then (false, p[1..])
    else if |p| >= 3 && p[1] == '-' then
      var (hit, rest) := Class(p[3..], c); (hit || Between(c, p[0], p[2]), rest)
    else
      var (hit, rest) := Class(p[1..], c); (hit || p[0] == c, rest)
  }

  lemma {:induction false} ClassShrinks(p: string, c: char)
    ensures |Class(p, c).1| <= |p|
  {
    if p != "" {
      if p[0] == '\\' && |p| >= 2 {
        ClassShrinks(p[2..], c);
      } else if p[0] != ']' {
        if |p| >= 3 && p[1] == '-' {
          ClassShrinks(p[3..], c);
        } else {
          ClassShrinks(p[1..], c);
        }
      }
    }
  }

  predicate Matches(p: string, s: string)
    decreases |p| + |s|
  {
    if p == "" then s == ""
    else if p[0] == '*' then Matches(p[1..], s) || (s != "" && Matches(p, s[1..]))
    else if s == "" then false
    else if p[0] == '?' then Matches(p[1..], s[1..])
    else if p[0] == '[' then
      var negated := |p| > 1 && p[1] == '^';
      var body := p[if negated then 2 else 1..];
      var (hit, rest) := Class(body, s[0]);
      ClassShrinks(body, s[0]);
      hit != negated && Matches(rest, s[1..])
    else if p[0] == '\\' && |p| >= 2 then s[0] == p[1] && Matches(p[2..], s[1..])
    else s[0] == p[0] && Matches(p[1..], s[1..])
  }

  // ── The meaning of the specials ───────────────────────────

  /** A star matches any text, of any length, before what the rest matches. */
  lemma {:induction false} StarMeans(p: string, s: string)
    ensures Matches("*" + p, s) <==> exists k: nat :: k <= |s| && Matches(p, s[k..])
    decreases |s|
  {
    assert ("*" + p)[1..] == p && s[0..] == s;
    if s != "" {
      StarMeans(p, s[1..]);
      if k: nat :| k <= |s[1..]| && Matches(p, s[1..][k..]) {
        assert s[1..][k..] == s[k + 1..];
      }
      if k: nat :| k <= |s| && Matches(p, s[k..]) && k > 0 {
        assert s[1..][k - 1..] == s[k..];
      }
    }
  }

  /** A question mark matches one character, and a backslash makes the next character literal. */
  lemma OneCharacter(p: string, s: string, c: char)
    ensures Matches("?" + p, s) <==> s != "" && Matches(p, s[1..])
    ensures Matches(['\\', c] + p, s) <==> s != "" && s[0] == c && Matches(p, s[1..])
    ensures Matches("\\", s) <==> s == "\\"
    ensures c != '*' && c != '?' && c != '[' && c != '\\' ==>
      (Matches([c] + p, s) <==> s != "" && s[0] == c && Matches(p, s[1..]))
  {
    assert ("?" + p)[1..] == p && (['\\', c] + p)[2..] == p && ([c] + p)[1..] == p;
    assert "\\"[1..] == "";
    if s != "" {
      assert Matches("", s[1..]) <==> s == [s[0]];
    }
  }

  /** A class of plain members matches one of them, and a negated class one character that is none of them. */
  lemma ClassMeans(members: string, p: string, s: string)
    requires forall c | c in members :: c != ']' && c != '\\' && c != '-' && c != '^'
    ensures Matches("[" + members + "]" + p, s) <==> s != "" && s[0] in members && Matches(p, s[1..])
    ensures Matches("[^" + members + "]" + p, s) <==> s != "" && s[0] !in members && Matches(p, s[1..])
  {
    var some, none := "[" + members + "]" + p, "[^" + members + "]" + p;
    assert some[1..] == members + "]" + p && none[2..] == members + "]" + p;
    assert none[1] == '^' && some[1] == (members + "]")[0];
    assert members != "" ==> some[1] == members[0] && members[0] in members;
    if s != "" {
      PlainClass(members, p, s[0]);
      hide Class;
    }
  }

  lemma {:induction false} PlainClass(members: string, p: string, c: char)
    requires forall x | x in members :: x != ']' && x != '\\' && x != '-'
    ensures Class(members + "]" + p, c) == (c in members, p)
  {
    var body := members + "]" + p;
    if members == "" {
      assert body[0] == ']' && body[1..] == p;
    } else {
      assert body[0] == members[0] && members[0] in members && body[1..] == members[1..] + "]" + p;
      assert body[1] == (members[1..] + "]")[0];
      assert |members| > 1 ==> body[1] == members[1] && members[1] in members;
      assert forall x | x in members[1..] :: x in members;
      PlainClass(members[1..], p, c);
    }
  }

  /** In a class, a range holds what lies between its ends, given either way round. */
  lemma RangeMeans(a: char, b: char, p: string, c: char)
    requires a != ']' && a != '\\'
    ensures Class([a, '-', b, ']'] + p, c) == ((a <= c && c <= b) || (b <= c && c <= a), p)
  {
    var body := [a, '-', b, ']'] + p;
    assert body[3..] == "]" + p && ("]" + p)[1..] == p;
  }

  // ── Literal text ──────────────────────────────────────────

  predicate Special(c: char) {
    c == '*' || c == '?' || c == '[' || c == '\\'
  }

  predicate Plain(s: string) {
    forall c | c in s :: !Special(c)
  }

  /** Literal text at the head of a pattern matches itself and nothing else. */
  lemma {:induction false} PlainHead(a: string, rest: string, s: string)
    requires Plain(a)
    ensures Matches(a + rest, s) <==> a <= s && Matches(rest, s[|a|..])
    decreases |a|
  {
    var p := a + rest;
    if a == "" {
      assert p == rest && s[0..] == s;
    } else {
      assert a[0] in a && p[0] == a[0] && p[1..] == a[1..] + rest;
      if s != "" && s[0] == a[0] {
        PlainHead(a[1..], rest, s[1..]);
        assert a <= s <==> a[1..] <= s[1..];
        assert a <= s ==> s[1..][|a| - 1..] == s[|a|..];
      }
    }
  }

  lemma PlainMatches(a: string, s: string)
    requires Plain(a)
    ensures Matches(a, s) <==> a == s
  {
    PlainHead(a, "", s);
    assert a + "" == a;
  }

  // ── Patterns of literals and stars ────────────────────────

  predicate Starred(s: string) {
    forall c | c in s :: c == '*' || !Special(c)
  }

  /** A match of `q + w` falls apart into one of `q` and one of `w`. */
  lemma {:induction false} MatchSplits(q: string, w: string, s: string) returns (k: nat)
    requires Starred(q) && Matches(q + w, s)
    ensures k <= |s| && Matches(q, s[..k]) && Matches(w, s[k..])
    decreases |q| + |s|
  {
    var p := q + w;
    if q == "" {
      k := 0;
      assert p == w && s[0..] == s && s[..0] == "";
    } else {
      assert q[0] in q && p[0] == q[0] && p[1..] == q[1..] + w;
      if q[0] == '*' && Matches(p[1..], s) {
        k := MatchSplits(q[1..], w, s);
      } else {
        k := MatchSplits(if q[0] == '*' then q else q[1..], w, s[1..]);
        assert s[1..][..k] == s[..k + 1][1..] && s[1..][k..] == s[k + 1..];
        k := k + 1;
      }
    }
  }

  lemma {:induction false} MatchJoins(q: string, w: string, s: string, k: nat)
    requires Starred(q) && k <= |s| && Matches(q, s[..k]) && Matches(w, s[k..])
    ensures Matches(q + w, s)
    decreases |q| + k
  {
    var p := q + w;
    if q == "" {
      assert p == w && s[k..] == s;
    } else {
      assert q[0] in q && p[0] == q[0] && p[1..] == q[1..] + w;
      if q[0] == '*' && Matches(q[1..], s[..k]) {
        MatchJoins(q[1..], w, s, k);
      } else {
        assert s[1..][..k - 1] == s[..k][1..] && s[1..][k - 1..] == s[k..];
        MatchJoins(if q[0] == '*' then q else q[1..], w, s[1..], k - 1);
      }
    }
  }

  function Count(s: string, c: char): nat {
    if s == "" then 0 else (if s[0] == c then 1 else 0) + Count(s[1..], c)
  }

  lemma {:induction false} CountConcat(a: string, b: string, c: char)
    ensures Count(a + b, c) == Count(a, c) + Count(b, c)
  {
    if a == "" {
      assert a + b == b;
    } else {
      assert (a + b)[1..] == a[1..] + b;
      CountConcat(a[1..], b, c);
    }
  }

  lemma CountPrefix(s: string, k: nat, c: char)
    requires k <= |s|
    ensures Count(s[..k], c) <= Count(s, c)
  {
    CountConcat(s[..k], s[k..], c);
    assert s[..k] + s[k..] == s;
  }

  lemma {:induction false} CountNone(s: string, c: char)
    requires c !in s
    ensures Count(s, c) == 0
  {
    if s != "" {
      CountNone(s[1..], c);
    }
  }

  /** What matches a pattern of literals and stars holds every literal of it. */
  lemma {:induction false} MatchCounts(q: string, s: string, c: char)
    requires Starred(q) && Matches(q, s) && c != '*'
    ensures Count(q, c) <= Count(s, c)
    decreases |q| + |s|
  {
    if q != "" {
      assert q[0] in q;
      if q[0] == '*' && Matches(q[1..], s) {
        MatchCounts(q[1..], s, c);
      } else {
        MatchCounts(if q[0] == '*' then q else q[1..], s[1..], c);
      }
    }
  }

  /** A star takes any text before what the rest of the pattern matches. */
  lemma {:induction false} StarHead(a: string, rest: string, s: string)
    requires Matches(rest, s)
    ensures Matches("*" + rest, a + s)
    decreases |a|
  {
    assert ("*" + rest)[1..] == rest;
    if a == "" {
      assert a + s == s;
    } else {
      StarHead(a[1..], rest, s);
      assert (a + s)[1..] == a[1..] + s;
    }
  }

  /** What matches a pattern that ends in a literal ends in it too, and holds it as often. */
  lemma LiteralEnd(q: string, c: char, s: string)
    requires Starred(q + [c]) && !Special(c) && Matches(q + [c], s)
    ensures Count(s, c) >= Count(q + [c], c) && s != "" && s[|s| - 1] == c
  {
    MatchCounts(q + [c], s, c);
    forall d | d in q ensures d == '*' || !Special(d) {
      assert d in q + [c];
    }
    var j := MatchSplits(q, [c], s);
    PlainMatches([c], s[j..]);
    hide Matches, Count;
  }
}
