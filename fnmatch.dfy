/**
 * Python's `fnmatch.fnmatch(name, pattern)` on whole strings, case-sensitive:
 * the pattern is translated into tokens the way `fnmatch.translate` builds its
 * regular expression (`*`, `?`, `[seq]`, `[!seq]`, everything else literal),
 * and the tokens must match the whole name.
 */
module Fnmatch {

  /** One member of a bracket expression: a character or an `a-z` range. */
  datatype Member = Single(c: char) | Range(lo: char, hi: char)

  datatype Token =
    | Literal(c: char)        // any character outside a bracket expression
    | AnyOne                  // `?`
    | AnyRun                  // `*`
    | Bracket(negated: bool, members: seq<Member>)   // `[seq]` or `[!seq]`

  /**
   * The index of the `]` that closes the bracket expression opened at
   * `pattern[0]`, or `|pattern|` when there is none: a `!` and then a `]`
   * right after the `[` belong to the bracket expression.
   */
  function BracketEnd(pattern: string): (j: nat)
    requires |pattern| >= 1
    ensures j <= |pattern|
    ensures j < |pattern| ==> 2 <= j && pattern[j] == ']'
    ensures var afterBang := if 1 < |pattern| && pattern[1] == '!' then 2 else 1;
      var start := if afterBang < |pattern| && pattern[afterBang] == ']' then afterBang + 1 else afterBang;
      && start <= j
      && (forall i :: start <= i < j ==> pattern[i] != ']')
      && (j == |pattern| <==> forall i :: start <= i < |pattern| ==> pattern[i] != ']')
  {
    var j1 := if 1 < |pattern| && pattern[1] == '!' then 2 else 1;
    var j2 := if j1 < |pattern| && pattern[j1] == ']' then j1 + 1 else j1;
    CloseFrom(pattern, j2)
  }

  /** The first index at or after `j` holding `]`, or `|pattern|`. */
  function CloseFrom(pattern: string, j: nat): (k: nat)
    requires j <= |pattern|
    ensures j <= k <= |pattern|
    ensures k < |pattern| ==> pattern[k] == ']'
    ensures forall i :: j <= i < k ==> pattern[i] != ']'
    decreases |pattern| - j
  {
    if j == |pattern| || pattern[j] == ']' then j else CloseFrom(pattern, j + 1)
  }

  /**
   * The members of a bracket expression as the regular-expression engine
   * reads them: `x-y` is a range, a `-` first or last is itself a member.
   */
  function Members(body: string): (ms: seq<Member>)
    ensures |ms| <= |body|
  {
    if body == [] then []
    else if |body| >= 3 && body[1] == '-' then [Range(body[0], body[2])] + Members(body[3..])
    else [Single(body[0])] + Members(body[1..])
  }

  /** `fnmatch.translate`, as a sequence of tokens instead of a regular expression. */
  function Translate(pattern: string): (tokens: seq<Token>)
    ensures |tokens| <= |pattern|
    ensures tokens == [] <==> pattern == []
    decreases |pattern|
  {
    if pattern == [] then []
    else if pattern[0] == '*' then [AnyRun] + Translate(pattern[1..])
    else if pattern[0] == '?' then [AnyOne] + Translate(pattern[1..])
    else if pattern[0] == '[' then
      var j := BracketEnd(pattern);
      if j == |pattern| then [Literal('[')] + Translate(pattern[1..])
      else
        var body := pattern[1..j];
        var token := if body[0] == '!' then Bracket(true, Members(body[1..])) else Bracket(false, Members(body));
        [token] + Translate(pattern[j + 1..])
    else [Literal(pattern[0])] + Translate(pattern[1..])
  }

  predicate HasMember(m: Member, c: char)
  {
    match m
    case Single(x) => c == x
    case Range(lo, hi) => lo <= c <= hi
  }

  predicate InBracket(members: seq<Member>, c: char)
  {
    exists i :: 0 <= i < |members| && HasMember(members[i], c)
  }

  /** Does the whole of `name` match the token sequence? */
  predicate MatchTokens(tokens: seq<Token>, name: string)
    decreases |tokens|, |name|
  {
    if tokens == [] then name == []
    else match tokens[0]
      case AnyRun => MatchTokens(tokens[1..], name) || (name != [] && MatchTokens(tokens, name[1..]))
      case AnyOne => name != [] && MatchTokens(tokens[1..], name[1..])
      case Literal(c) => name != [] && name[0] == c && MatchTokens(tokens[1..], name[1..])
      case Bracket(negated, members) =>
        name != [] && InBracket(members, name[0]) != negated && MatchTokens(tokens[1..], name[1..])
  }

  /** `fnmatch.fnmatch(name, pattern)` with case-sensitive comparison. */
  predicate Match(name: string, pattern: string)
  {
    MatchTokens(Translate(pattern), name)
  }

  /** A character that `fnmatch` gives a special meaning outside brackets. */
  predicate IsSpecial(c: char)
  {
    c == '*' || c == '?' || c == '['
  }

  /** Without `*`, `?` or `[` a pattern translates to its own characters as literals. */
  lemma {:induction false} TranslatePlain(pattern: string)
    requires forall i :: 0 <= i < |pattern| ==> !IsSpecial(pattern[i])
    ensures |Translate(pattern)| == |pattern|
    ensures forall i :: 0 <= i < |pattern| ==> Translate(pattern)[i] == Literal(pattern[i])
  {
    if pattern != [] {
      TranslatePlain(pattern[1..]);
    }
  }

  /** Literal tokens match exactly the string they spell. */
  lemma {:induction false} MatchLiterals(tokens: seq<Token>, text: string, name: string)
    requires |tokens| == |text|
    requires forall i :: 0 <= i < |text| ==> tokens[i] == Literal(text[i])
    ensures MatchTokens(tokens, name) <==> name == text
  {
    if tokens != [] {
      MatchLiterals(tokens[1..], text[1..], if name == [] then [] else name[1..]);
      if name != [] && name[0] == text[0] && name[1..] == text[1..] {
        assert name == [name[0]] + name[1..] && text == [text[0]] + text[1..];
      }
    }
  }

  /** A pattern without `*`, `?` or `[` matches only itself. */
  lemma PlainPatternMatchesItself(pattern: string, name: string)
    requires forall i :: 0 <= i < |pattern| ==> !IsSpecial(pattern[i])
    ensures Match(name, pattern) <==> name == pattern
  {
    TranslatePlain(pattern);
    MatchLiterals(Translate(pattern), pattern, name);
  }

  /** A `*` run absorbs any suffix. */
  lemma {:induction false} AnyRunMatchesEverything(name: string)
    ensures MatchTokens([AnyRun], name)
  {
    if name != [] {
      AnyRunMatchesEverything(name[1..]);
    } else {
      assert [AnyRun][1..] == [];
    }
  }

  /** The pattern `*` matches every name. */
  lemma StarMatchesEverything(name: string)
    ensures Match(name, "*")
  {
    assert Translate("*") == [AnyRun];
    AnyRunMatchesEverything(name);
  }

  /** Without `*`, a match consumes one character per token. */
  lemma {:induction false} MatchLength(tokens: seq<Token>, name: string)
    requires forall i :: 0 <= i < |tokens| ==> tokens[i] != AnyRun
    requires MatchTokens(tokens, name)
    ensures |name| == |tokens|
  {
    if tokens != [] {
      MatchLength(tokens[1..], name[1..]);
    }
  }

  /** `[Z,N,E]` read as a bracket expression: the comma is a member too. */
  lemma TranslateComponents()
    ensures Translate("[Z,N,E]") == [Bracket(false, [Single('Z'), Single(','), Single('N'), Single(','), Single('E')])]
  {
    assert BracketEnd("[Z,N,E]") == 6;
    assert Members("Z,N,E") == [Single('Z'), Single(','), Single('N'), Single(','), Single('E')];
  }

  lemma BracketOfComponents(c: char)
    ensures InBracket([Single('Z'), Single(','), Single('N'), Single(','), Single('E')], c) <==> c in "Z,NE"
  {
    var members := [Single('Z'), Single(','), Single('N'), Single(','), Single('E')];
    if c in "Z,NE" {
      assert HasMember(members[0], c) || HasMember(members[1], c)
        || HasMember(members[2], c) || HasMember(members[4], c);
    }
  }

  /** Two literals and a bracket expression match exactly three characters. */
  lemma MatchTwoLiteralsAndBracket(a: char, b: char, members: seq<Member>, name: string)
    ensures MatchTokens([Literal(a), Literal(b), Bracket(false, members)], name) <==>
      |name| == 3 && name[0] == a && name[1] == b && InBracket(members, name[2])
  {
    var bracket := Bracket(false, members);
    var tokens := [Literal(a), Literal(b), bracket];
    assert tokens[1..] == [Literal(b), bracket];
    assert tokens[1..][1..] == [bracket];
    assert [bracket][1..] == [];
    if |name| >= 3 {
      assert name[1..][1..] == name[2..];
      assert name[2..][1..] == name[3..];
      assert MatchTokens([bracket], name[2..]) <==> InBracket(members, name[2]) && name[3..] == [];
      assert MatchTokens(tokens[1..], name[1..]) <==> name[1] == b && MatchTokens([bracket], name[2..]);
    } else if name != [] && name[1..] != [] {
      assert name[1..][1..] == [];
      assert !MatchTokens([bracket], []);
      assert !MatchTokens(tokens[1..], name[1..]);
    } else if name != [] {
      assert !MatchTokens(tokens[1..], []);
    }
  }

  /**
   * The shape of the default priority patterns: two literal characters and
   * `[Z,N,E]` match exactly the three-character codes ending in `Z`, `,`, `N`
   * or `E`.
   */
  lemma ComponentPattern(band: char, instrument: char, name: string)
    requires !IsSpecial(band) && !IsSpecial(instrument)
    ensures Match(name, [band, instrument] + "[Z,N,E]") <==>
      |name| == 3 && name[0] == band && name[1] == instrument && name[2] in "Z,NE"
  {
    var pattern := [band, instrument] + "[Z,N,E]";
    var members := [Single('Z'), Single(','), Single('N'), Single(','), Single('E')];
    assert pattern[1..][1..] == "[Z,N,E]";
    TranslateComponents();
    assert Translate(pattern) == [Literal(band), Literal(instrument), Bracket(false, members)];
    MatchTwoLiteralsAndBracket(band, instrument, members, name);
    if |name| == 3 {
      BracketOfComponents(name[2]);
    }
  }

  /** `CloseFrom` stops at the first `]`. */
  lemma {:induction false} CloseAt(pattern: string, j: nat, k: nat)
    requires j <= k < |pattern| && pattern[k] == ']'
    requires forall i :: j <= i < k ==> pattern[i] != ']'
    ensures CloseFrom(pattern, j) == k
    decreases k - j
  {
    if j < k {
      CloseAt(pattern, j + 1, k);
    }
  }

  /** A pattern that is one whole bracket expression translates to one token. */
  lemma WholeBracket(pattern: string)
    requires |pattern| >= 1 && pattern[0] == '['
    requires BracketEnd(pattern) == |pattern| - 1
    ensures var inner := pattern[1..|pattern| - 1];
      Translate(pattern) == [if inner[0] == '!' then Bracket(true, Members(inner[1..])) else Bracket(false, Members(inner))]
  {
    assert pattern[|pattern|..] == [];
  }

  /** The same, for the pattern `[inner]` built from its contents. */
  lemma BracketAround(inner: string)
    requires |inner| >= 1 && BracketEnd("[" + inner + "]") == |inner| + 1
    ensures Translate("[" + inner + "]")
         == [if inner[0] == '!' then Bracket(true, Members(inner[1..])) else Bracket(false, Members(inner))]
  {
    var pattern := "[" + inner + "]";
    WholeBracket(pattern);
    assert pattern[1..|pattern| - 1] == inner;
  }

  /** Where `[seq]` ends, for a `seq` that holds no `]` and does not start with `!`. */
  lemma PlainBracketEnd(body: string)
    requires |body| >= 1 && ']' !in body && body[0] != '!'
    ensures BracketEnd("[" + body + "]") == |body| + 1
  {
    var pattern := "[" + body + "]";
    forall i | 1 <= i < |body| + 1 ensures pattern[i] != ']' {
      assert pattern[i] == body[i - 1];
    }
    assert pattern[1] == body[0];
    CloseAt(pattern, 1, |body| + 1);
  }

  /** Where `[!seq]` ends, for the same kind of `seq`. */
  lemma NegatedBracketEnd(body: string)
    requires |body| >= 1 && ']' !in body
    ensures BracketEnd("[!" + body + "]") == |body| + 2
  {
    var pattern := "[!" + body + "]";
    forall i | 2 <= i < |body| + 2 ensures pattern[i] != ']' {
      assert pattern[i] == body[i - 2];
    }
    assert pattern[1] == '!' && pattern[2] == body[0];
    CloseAt(pattern, 2, |body| + 2);
  }

  /** `[seq]` is one plain bracket token. */
  lemma TranslatePlainBracket(body: string)
    requires |body| >= 1 && ']' !in body && body[0] != '!'
    ensures Translate("[" + body + "]") == [Bracket(false, Members(body))]
  {
    PlainBracketEnd(body);
    BracketAround(body);
  }

  /** `[!seq]` is one negated bracket token over the same members. */
  lemma TranslateNegatedBracket(body: string)
    requires |body| >= 1 && ']' !in body
    ensures Translate("[!" + body + "]") == [Bracket(true, Members(body))]
  {
    var pattern := "[!" + body + "]";
    NegatedBracketEnd(body);
    WholeBracket(pattern);
    var inner := pattern[1..|pattern| - 1];
    assert inner[0] == '!' && inner[1..] == body;
  }

  /** A lone bracket token matches exactly the one-character names it admits. */
  lemma MatchBracket(negated: bool, members: seq<Member>, name: string)
    ensures MatchTokens([Bracket(negated, members)], name) <==>
      |name| == 1 && InBracket(members, name[0]) != negated
  {
    assert [Bracket(negated, members)][1..] == [];
  }

  /** Without a `-`, every character of a bracket body is a member of its own. */
  lemma {:induction false} PlainMembers(body: string, c: char)
    requires '-' !in body
    ensures InBracket(Members(body), c) <==> c in body
  {
    if body != [] {
      var rest := body[1..];
      assert '-' !in rest;
      PlainMembers(rest, c);
      assert Members(body) == [Single(body[0])] + Members(rest);
      assert body == [body[0]] + rest;
      if InBracket(Members(body), c) {
        var i :| 0 <= i < |Members(body)| && HasMember(Members(body)[i], c);
        if i > 0 {
          assert HasMember(Members(rest)[i - 1], c);
        }
      }
      if c in rest {
        var i :| 0 <= i < |Members(rest)| && HasMember(Members(rest)[i], c);
        assert HasMember(Members(body)[i + 1], c);
      }
      if c == body[0] {
        assert HasMember(Members(body)[0], c);
      }
    }
  }

  /** `lo-hi` in a bracket body holds exactly the characters from `lo` to `hi`. */
  lemma RangeMembers(lo: char, hi: char, c: char)
    ensures InBracket(Members([lo, '-', hi]), c) <==> lo <= c <= hi
  {
    assert [lo, '-', hi][3..] == [];
    assert Members([lo, '-', hi]) == [Range(lo, hi)];
    if lo <= c <= hi {
      assert HasMember([Range(lo, hi)][0], c);
    }
  }

  /** `[seq]` without `-` matches exactly the one-character names whose character is in `seq`. */
  lemma PlainBracketMatches(body: string, name: string)
    requires |body| >= 1 && ']' !in body && body[0] != '!' && '-' !in body
    ensures Match(name, "[" + body + "]") <==> |name| == 1 && name[0] in body
  {
    TranslatePlainBracket(body);
    MatchBracket(false, Members(body), name);
    if |name| == 1 {
      PlainMembers(body, name[0]);
    }
  }

  /** `[!seq]` matches exactly the single characters that `[seq]` does not. */
  lemma NegatedBracket(body: string, name: string)
    requires |body| >= 1 && ']' !in body && body[0] != '!'
    ensures Match(name, "[!" + body + "]") <==> |name| == 1 && !Match(name, "[" + body + "]")
  {
    TranslatePlainBracket(body);
    TranslateNegatedBracket(body);
    MatchBracket(true, Members(body), name);
    MatchBracket(false, Members(body), name);
  }

  /** A `]` right after `[` or `[!` is a member of the set, not its end. */
  lemma LeadingCloseIsMember()
    ensures Translate("[]]") == [Bracket(false, [Single(']')])]
    ensures Translate("[!]]") == [Bracket(true, [Single(']')])]
  {
    assert Members("]") == [Single(']')] by {
      assert "]"[1..] == [];
    }
    WholeBracket("[]]");
    assert "[]]"[1..2] == "]";
    WholeBracket("[!]]");
    assert "[!]]"[1..3] == "!]" && "!]"[1..] == "]";
  }

  /**
   * A `[` that no later `]` closes is a literal `[`; a `]` right after the
   * `[` or `[!` does not close it (`[!]x` and `[]` are literal too).
   */
  lemma UnclosedBracketIsLiteral(pattern: string)
    requires |pattern| >= 1 && pattern[0] == '['
    requires var afterBang := if 1 < |pattern| && pattern[1] == '!' then 2 else 1;
      var start := if afterBang < |pattern| && pattern[afterBang] == ']' then afterBang + 1 else afterBang;
      forall i :: start <= i < |pattern| ==> pattern[i] != ']'
    ensures Translate(pattern) == [Literal('[')] + Translate(pattern[1..])
  {
    assert BracketEnd(pattern) == |pattern|;
  }

  /** `?` matches exactly the one-character names. */
  lemma QuestionMarkMatchesOneCharacter(name: string)
    ensures Match(name, "?") <==> |name| == 1
  {
    assert "?"[1..] == [];
    assert Translate("?") == [AnyOne];
    assert [AnyOne][1..] == [];
    if name != [] {
      assert MatchTokens([AnyOne], name) <==> name[1..] == [];
    }
  }
}
