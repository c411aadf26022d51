/** `escapeLikeWildcards` against a LIKE matcher with escape character `\`
    (section 8.5 of ISO/IEC 9075-2, PostgreSQL manual section 9.7.1). */
module LikeEscape {
  import opened Strings

  function EscapeLikeChar(c: char): string {
    if c in "\\%_" then ['\\', c] else [c]
  }

  function EscapeLikeWildcards(s: string): string {
    if s == "" then "" else EscapeLikeChar(s[0]) + EscapeLikeWildcards(s[1..])
  }

  /** `t LIKE pattern ESCAPE '\'`: `%` takes any run, `_` any one character, `\` makes the next
      character ordinary; a pattern ending in a lone `\` accepts nothing. */
  predicate Like(pattern: string, t: string)
    decreases |pattern| + |t|
  {
    if pattern == "" then t == ""
    else if pattern[0] == '%' then Like(pattern[1..], t) || (t != "" && Like(pattern, t[1..]))
    else if pattern[0] == '_' then t != "" && Like(pattern[1..], t[1..])
    else if pattern[0] == '\\' then |pattern| >= 2 && t != "" && t[0] == pattern[1] && Like(pattern[2..], t[1..])
    else t != "" && t[0] == pattern[0] && Like(pattern[1..], t[1..])
  }

  lemma EscapedCharConsumesItself(c: char, tail: string, t: string)
    ensures Like(EscapeLikeChar(c) + tail, t) <==> t != "" && t[0] == c && Like(tail, t[1..])
  {
    assert (EscapeLikeChar(c) + tail)[|EscapeLikeChar(c)|..] == tail;
  }

  /** An escaped string consumes exactly itself, whatever pattern follows. */
  lemma {:induction false} EscapedConsumesItself(s: string, after: string, t: string)
    ensures Like(EscapeLikeWildcards(s) + after, t) <==> s <= t && Like(after, t[|s|..])
  {
    if s == "" {
      assert EscapeLikeWildcards(s) + after == after && t[0..] == t;
    } else {
      var c, tail := s[0], EscapeLikeWildcards(s[1..]) + after;
      var p := EscapeLikeChar(c) + tail;
      assert EscapeLikeWildcards(s) + after == p;
      EscapedCharConsumesItself(c, tail, t);
      hide Like;
      if t != "" && t[0] == c {
        EscapedConsumesItself(s[1..], after, t[1..]);
        assert s == [c] + s[1..] && t == [c] + t[1..];
        if s <= t {
          assert t[1..][|s| - 1..] == t[|s|..];
        }
      }
    }
  }

  lemma PercentStep(p: string, t: string)
    ensures Like("%" + p, t) <==> Like(p, t) || (t != "" && Like("%" + p, t[1..]))
  {
    assert ("%" + p)[1..] == p;
  }

  /** `%p` accepts `t` exactly when `p` accepts a suffix of it. */
  lemma {:induction false} PercentAcceptsSuffix(p: string, t: string)
    ensures Like("%" + p, t) <==> exists i :: 0 <= i <= |t| && Like(p, t[i..])
  {
    PercentStep(p, t);
    hide Like;
    assert t[0..] == t;
    if t != "" {
      PercentAcceptsSuffix(p, t[1..]);
      forall i | 0 < i <= |t| ensures t[i..] == t[1..][i - 1..] {}
      if j :| 0 <= j <= |t[1..]| && Like(p, t[1..][j..]) {
        assert Like(p, t[j + 1..]);
      }
      if i :| 0 <= i <= |t| && Like(p, t[i..]) && i > 0 {
        assert Like(p, t[1..][i - 1..]);
      }
    }
  }

  lemma {:induction false} PercentAcceptsAll(t: string)
    ensures Like("%", t)
  {
    if t == "" {
      assert Like("%"[1..], t);
    } else {
      PercentAcceptsAll(t[1..]);
    }
  }

  /** The escaped value matches itself and nothing else. */
  lemma LikeEscapeExact(s: string, t: string)
    ensures Like(EscapeLikeWildcards(s), t) <==> t == s
  {
    EscapedConsumesItself(s, "", t);
    assert EscapeLikeWildcards(s) + "" == EscapeLikeWildcards(s);
  }

  /** Between two `%`, the form every search uses, it matches exactly the texts that contain it. */
  lemma LikeContainsExact(s: string, t: string)
    ensures Like("%" + EscapeLikeWildcards(s) + "%", t) <==> Contains(t, s)
  {
    var p := EscapeLikeWildcards(s) + "%";
    assert "%" + EscapeLikeWildcards(s) + "%" == "%" + p;
    PercentAcceptsSuffix(p, t);
    forall i | 0 <= i <= |t| ensures Like(p, t[i..]) <==> s <= t[i..] {
      EscapedConsumesItself(s, "%", t[i..]);
      if s <= t[i..] { PercentAcceptsAll(t[i..][|s|..]); }
    }
  }
}
