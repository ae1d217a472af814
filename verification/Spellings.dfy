/** Which spellings of an identifier, read as a Redis pattern, match its canonical text. */
module Spellings {
  import opened Seqs
  import opened IdText
  import opened Glob

  /**
   The spellings of `id` that match its canonical text: that text, or that text between outer
   characters that amount to nothing, a star or a backslash before it and a star after.
   */
  predicate Reaches(text: string, id: Uuid) {
    || text == Canonical(id)
    || (|text| == 38 && text[1..37] == Canonical(id) && (text[0] == '*' || text[0] == '\\') && text[37] == '*')
  }

  lemma HexIsPlain(s: string)
    requires forall c | c in s :: HexOrHyphen(c)
    ensures Plain(s)
  {
  }

  lemma UrnIsPlain(s: string)
    requires IsUrn(s)
    ensures Plain(s)
  {
    forall c | c in s ensures !Special(c) {
      var i :| 0 <= i < |s| && s[i] == c;
      assert URN[i] in URN;
    }
  }

  /** All forms but the one with outer characters are literal patterns. */
  lemma LiteralSpelling(text: string)
    requires Parse(text).Some? && |text| != 38
    ensures Plain(text)
  {
    if |text| == 36 {
      HyphenatedChars(text);
    } else if |text| == 45 {
      HyphenatedChars(text[9..]);
      UrnIsPlain(text[..9]);
      assert text == text[..9] + text[9..];
    }
  }

  /** The middle and the last character, matched against at most the length of the middle. */
  lemma MiddleMatches(middle: string, last: char, s: string)
    requires Plain(middle) && |s| <= |middle|
    ensures Matches(middle + [last], s) <==> s == middle && last == '*'
  {
    PlainHead(middle, [last], s);
    assert Matches([last], "") <==> last == '*' by {
      assert [last][1..] == "";
    }
    if middle <= s {
      assert s == middle && s[|middle|..] == "";
    }
  }

  lemma {:induction false} StarBefore(middle: string, last: char, s: string)
    requires Plain(middle) && |s| <= |middle|
    ensures Matches("*" + (middle + [last]), s) <==> s == middle && last == '*'
    decreases |s|
  {
    assert ("*" + (middle + [last]))[1..] == middle + [last];
    MiddleMatches(middle, last, s);
    if s != "" {
      StarBefore(middle, last, s[1..]);
    }
  }

  /** An unclosed class, or one closed by the last character, takes up the whole pattern. */
  lemma {:induction false} ClassTakesAll(p: string, c: char)
    requires forall i | 0 <= i < |p| - 1 :: p[i] != ']' && p[i] != '\\'
    ensures Class(p, c).1 == ""
    decreases |p|
  {
    if p != "" && !(p[0] == ']') {
      if |p| >= 3 && p[1] == '-' {
        ClassTakesAll(p[3..], c);
      } else {
        ClassTakesAll(p[1..], c);
      }
    }
  }

  lemma ClassBefore(middle: string, last: char, s: string)
    requires |s| == |middle| && |s| > 1 && middle[0] != '^'
    requires forall c | c in middle :: c != ']' && c != '\\'
    ensures !Matches("[" + (middle + [last]), s)
  {
    var body := middle + [last];
    var p := "[" + body;
    assert p[0] == '[' && p[1] == middle[0] && p[1..] == body;
    forall i | 0 <= i < |body| - 1 ensures body[i] != ']' && body[i] != '\\' {
      assert body[i] in middle;
    }
    ClassTakesAll(body, s[0]);
    hide Class;
    assert !Matches("", s[1..]);
  }

  /** The form with outer characters, by its first character. */
  lemma OuterMatches(first: char, middle: string, last: char, s: string)
    requires |middle| == |s| == 36
    requires forall c | c in middle :: HexOrHyphen(c)
    ensures Matches([first] + (middle + [last]), s)
      <==> s == middle && (first == '*' || first == '\\') && last == '*'
  {
    var p := [first] + (middle + [last]);
    HexIsPlain(middle);
    assert p[0] == first && p[1..] == middle + [last];
    MiddleMatches(middle, last, s);
    MiddleMatches(middle, last, s[1..]);
    if first == '*' {
      StarBefore(middle, last, s);
    } else if first == '[' {
      assert middle[0] in middle;
      ClassBefore(middle, last, s);
    } else if first == '\\' {
      var q := middle + [last];
      assert q[0] == middle[0] && middle[0] in middle;
      assert p[1] == q[0] && p[2..] == q[1..];
    }
  }

  /** A spelling, read as a pattern, matches a canonical text exactly if it is one of those that reach it. */
  lemma SpellingMatches(text: string, id: Uuid)
    requires Parse(text).Some?
    ensures Matches(text, Canonical(id)) <==> Reaches(text, id)
  {
    hide Canonical, Matches;
    if |text| == 38 {
      HyphenatedChars(text[1..37]);
      assert text == [text[0]] + (text[1..37] + [text[37]]);
      OuterMatches(text[0], text[1..37], text[37], Canonical(id));
    } else {
      LiteralSpelling(text);
      PlainMatches(text, Canonical(id));
    }
  }

  /** A spelling that reaches an identifier parses to it. */
  lemma ReachesItsOwn(text: string, id: Uuid)
    requires Reaches(text, id)
    ensures Parse(text) == Some(id)
  {
    HyphenatedBack(id);
  }
}
