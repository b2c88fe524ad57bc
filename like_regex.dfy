/**
 * The regular expression built from a search pattern in renderResults (src/main.js). The
 * pattern is an SQLite LIKE pattern: `%` matches any run of characters and `_` any single
 * character. It is split on `%`; every piece is escaped with `escapeRegExp`, its `_` become `.`,
 * and the pieces are folded into `(.*)(piece1)(.*)(piece2)(.*)...`, so the regex has one
 * capture group per piece and one for every span of text around and between them.
 *
 * The regex engine is not modelled. What the regex means is stated through `Lex`, which reads
 * the regex strings built here as a sequence of literal characters and operators: a backslash
 * before a syntax character, the unescaped `.` and `*`, and plain parentheses. It is not a
 * reader of regular expressions in general: class escapes such as `\d`, back-references,
 * `(?...)` groups and the literal `]`, `{`, `}` of Annex B of ECMA-262 are not read as the
 * engine reads them, and none of them occurs in a regex this module builds.
 */
module LikeRegex {

  /** The characters `escapeRegExp` puts a backslash before: `.*+?^${}()|[]\`. */
  predicate IsRegexSpecial(c: char)
  {
    c in ".*+?^${}()|[]\\"
  }

  /** The syntax characters of ECMAScript regular expressions (section 22.2.1 of ECMA-262),
      which the engine reads as operators unless a backslash precedes them. */
  predicate IsSyntaxCharacter(c: char)
  {
    || c == '^' || c == '$' || c == '\\' || c == '.' || c == '*' || c == '+' || c == '?'
    || c == '(' || c == ')' || c == '[' || c == ']' || c == '{' || c == '}' || c == '|'
  }

  /** The characters `escapeRegExp` escapes are exactly the engine's syntax characters. */
  lemma SpecialsAreSyntaxCharacters(c: char)
    ensures IsRegexSpecial(c) <==> IsSyntaxCharacter(c)
  {
  }

  /** `escapeRegExp`: a backslash is put before every special character, one by one; the
      result is longer by the number of specials. */
  function EscapeRegExp(s: string): (e: string)
    ensures |e| == |s| + SpecialCount(s)
  {
    if s == [] then []
    else (if IsRegexSpecial(s[0]) then ['\\', s[0]] else [s[0]]) + EscapeRegExp(s[1..])
  }

  /** Every `_` replaced by `.`. */
  function ReplaceUnderscores(s: string): (r: string)
    ensures |r| == |s|
    ensures forall i :: 0 <= i < |s| ==> r[i] == if s[i] == '_' then '.' else s[i]
  {
    if s == [] then [] else [if s[0] == '_' then '.' else s[0]] + ReplaceUnderscores(s[1..])
  }

  /** The regex of one piece of the pattern (`pieceRegex`): escaped, then with `_` made `.`;
      one character longer for each special character of the piece. */
  function PieceRegex(piece: string): (r: string)
    ensures |r| == |piece| + SpecialCount(piece)
  {
    ReplaceUnderscores(EscapeRegExp(piece))
  }

  /** The regex of a pattern: the pieces between its `%` folded, from the left, onto the
      leading group `(.*)`, which every such regex begins with. */
  function PatternRegex(pattern: string): (r: string)
    ensures |r| >= 4 && r[..4] == "(.*)"
  {
    Fold("(.*)", Split(pattern, '%'))
  }

  /** The reducer: every piece appends `(pieceRegex)(.*)` to the regex built so far. */
  function Fold(fullRegex: string, pieces: seq<string>): (r: string)
    ensures |r| >= |fullRegex| + 6 * |pieces| && r[..|fullRegex|] == fullRegex
    decreases |pieces|
  {
    if pieces == [] then fullRegex
    else Fold(fullRegex + "(" + PieceRegex(pieces[0]) + ")(.*)", pieces[1..])
  }

  // ---------------------------------------------------------------------------------------
  // Splitting on a separator, as String.prototype.split does with a one-character string

  function Occurrences(s: string, c: char): nat
  {
    if s == [] then 0 else (if s[0] == c then 1 else 0) + Occurrences(s[1..], c)
  }

  /** The pieces between the separators: one more piece than there are separators, none of
      them holding the separator. */
  function Split(s: string, sep: char): (pieces: seq<string>)
    ensures |pieces| == Occurrences(s, sep) + 1
    ensures forall k :: 0 <= k < |pieces| ==> sep !in pieces[k]
  {
    if s == [] then [[]]
    else
      var rest := Split(s[1..], sep);
      if s[0] == sep then [[]] + rest else [[s[0]] + rest[0]] + rest[1..]
  }

  /** The pieces joined with `sep` between each two. */
  function Join(pieces: seq<string>, sep: char): string
  {
    if pieces == [] then []
    else if |pieces| == 1 then pieces[0]
    else pieces[0] + [sep] + Join(pieces[1..], sep)
  }

  /** Joining the pieces back gives the pattern. */
  lemma {:induction false} JoinSplit(s: string, sep: char)
    ensures Join(Split(s, sep), sep) == s
  {
    if s != [] {
      var rest := Split(s[1..], sep);
      JoinSplit(s[1..], sep);
      if s[0] != sep {
        if |rest| == 1 {
          assert Split(s, sep) == [[s[0]] + rest[0]];
        } else {
          var pieces := Split(s, sep);
          assert pieces[1..] == rest[1..];
          assert Join(rest, sep) == rest[0] + [sep] + Join(rest[1..], sep);
        }
      } else {
        assert Split(s, sep) == [[]] + rest;
        assert ([[]] + rest)[1..] == rest;
      }
    }
  }

  lemma {:induction false} SplitAfterRun(w: string, t: string, sep: char)
    requires sep !in w
    ensures var rest := Split(t, sep);
      Split(w + t, sep) == [w + rest[0]] + rest[1..]
  {
    if w != [] {
      assert (w + t)[1..] == w[1..] + t;
      SplitAfterRun(w[1..], t, sep);
      assert [w[0]] + (w[1..] + Split(t, sep)[0]) == w + Split(t, sep)[0];
    } else {
      var rest := Split(t, sep);
      assert w + t == t && w + rest[0] == rest[0];
      assert [rest[0]] + rest[1..] == rest;
    }
  }

  /** Splitting a join of separator-free pieces gives the pieces back. */
  lemma {:induction false} SplitJoin(pieces: seq<string>, sep: char)
    requires |pieces| >= 1
    requires forall k :: 0 <= k < |pieces| ==> sep !in pieces[k]
    ensures Split(Join(pieces, sep), sep) == pieces
    decreases |pieces|
  {
    if |pieces| == 1 {
      SplitAfterRun(pieces[0], [], sep);
      assert pieces[0] + [] == pieces[0];
    } else {
      var tail := Join(pieces[1..], sep);
      SplitJoin(pieces[1..], sep);
      var t := [sep] + tail;
      assert t[1..] == tail;
      assert Split(t, sep) == [[]] + pieces[1..];
      assert Join(pieces, sep) == pieces[0] + t;
      SplitAfterRun(pieces[0], t, sep);
      assert pieces[0] + [] == pieces[0];
    }
  }

  // ---------------------------------------------------------------------------------------
  // Reading the regex strings built here as the engine does

  datatype Token = Literal(c: char) | Operator(c: char)

  /** Reads a regex string of the form built here: a backslash before a character makes that
      character literal (the engine agrees when it is a syntax character, which is all that
      `escapeRegExp` ever escapes); an unescaped syntax character is an operator; any other
      character is literal. A backslash at the very end is left as the operator `\`. */
  function Lex(r: string): seq<Token>
  {
    if r == [] then []
    else if r[0] == '\\' then
      if |r| == 1 then [Operator('\\')] else [Literal(r[1])] + Lex(r[2..])
    else if IsSyntaxCharacter(r[0]) then [Operator(r[0])] + Lex(r[1..])
    else [Literal(r[0])] + Lex(r[1..])
  }

  /** The number of capture groups of a regex built here: its unescaped `(`. Every `(` of such
      a regex opens a plain capturing group, since a piece's `?` is always escaped and `(?`
      never occurs. */
  function CaptureGroupCount(regex: string): nat
  {
    multiset(Lex(regex))[Operator('(')]
  }

  /** What a piece of a LIKE pattern matches, token by token: `_` is any one character, every
      other character is itself. */
  function LikeTokens(piece: string): (ts: seq<Token>)
    ensures |ts| == |piece|
    ensures forall i :: 0 <= i < |piece| ==>
      ts[i] == if piece[i] == '_' then Operator('.') else Literal(piece[i])
  {
    if piece == [] then [] else
      [if piece[0] == '_' then Operator('.') else Literal(piece[0])] + LikeTokens(piece[1..])
  }

  function Literals(s: string): (ts: seq<Token>)
    ensures |ts| == |s|
    ensures forall i :: 0 <= i < |s| ==> ts[i] == Literal(s[i])
  {
    if s == [] then [] else [Literal(s[0])] + Literals(s[1..])
  }

  /** How many characters of `s` are regex specials. */
  function SpecialCount(s: string): nat
  {
    if s == [] then 0 else (if IsRegexSpecial(s[0]) then 1 else 0) + SpecialCount(s[1..])
  }

  /** Escaping makes every character literal: exactly the special characters gain a backslash,
      and the escaped string reads as the original characters, each matched as itself. */
  lemma {:induction false} EscapedIsLiteral(s: string)
    ensures Lex(EscapeRegExp(s)) == Literals(s)
    ensures |EscapeRegExp(s)| == |s| + SpecialCount(s)
  {
    if s != [] {
      EscapedIsLiteral(s[1..]);
      var e := EscapeRegExp(s);
      if IsRegexSpecial(s[0]) {
        assert e[2..] == EscapeRegExp(s[1..]);
      } else {
        assert e[1..] == EscapeRegExp(s[1..]);
      }
    }
  }

  lemma {:induction false} ReplaceUnderscoresAppend(a: string, b: string)
    ensures ReplaceUnderscores(a + b) == ReplaceUnderscores(a) + ReplaceUnderscores(b)
  {
  }

  /** The regex of a piece means what the piece means in LIKE: all characters are matched
      literally, the regex specials included, except `_`, which matches any one character. */
  lemma {:induction false} PieceRegexMeaning(piece: string)
    ensures Lex(PieceRegex(piece)) == LikeTokens(piece)
  {
    if piece != [] {
      var c := piece[0];
      var head := if IsRegexSpecial(c) then ['\\', c] else [c];
      assert EscapeRegExp(piece) == head + EscapeRegExp(piece[1..]);
      ReplaceUnderscoresAppend(head, EscapeRegExp(piece[1..]));
      var r := PieceRegex(piece);
      PieceRegexMeaning(piece[1..]);
      if IsRegexSpecial(c) {
        assert ReplaceUnderscores(head) == head;
        assert r[2..] == PieceRegex(piece[1..]);
      } else {
        assert r[1..] == PieceRegex(piece[1..]);
      }
    }
  }

  /** A regex with no dangling backslash can be read in two parts. */
  lemma {:induction false} LexAppend(a: string, b: string)
    requires Operator('\\') !in Lex(a)
    ensures Lex(a + b) == Lex(a) + Lex(b)
    decreases |a|
  {
    if a == [] {
      assert a + b == b;
    } else if a[0] == '\\' {
      assert (a + b)[2..] == a[2..] + b;
      LexAppend(a[2..], b);
    } else {
      assert (a + b)[1..] == a[1..] + b;
      LexAppend(a[1..], b);
    }
  }

  // ---------------------------------------------------------------------------------------
  // The shape of the whole regex

  const Wildcard: string := ".*"

  /** The bodies of the capture groups, in order: a wildcard, then for every piece its regex
      followed by a wildcard. */
  function GroupBodies(pieces: seq<string>): seq<string>
  {
    [Wildcard] + PieceBodies(pieces)
  }

  function PieceBodies(pieces: seq<string>): seq<string>
  {
    if pieces == [] then [] else [PieceRegex(pieces[0]), Wildcard] + PieceBodies(pieces[1..])
  }

  /** Every body in its own parentheses, one after the other. */
  function Parenthesize(bodies: seq<string>): string
  {
    if bodies == [] then [] else "(" + bodies[0] + ")" + Parenthesize(bodies[1..])
  }

  lemma {:induction false} ParenthesizeAppend(a: seq<string>, b: seq<string>)
    ensures Parenthesize(a + b) == Parenthesize(a) + Parenthesize(b)
    decreases |a|
  {
    if a == [] {
      assert a + b == b;
    } else {
      assert (a + b)[1..] == a[1..] + b;
      ParenthesizeAppend(a[1..], b);
    }
  }

  lemma {:induction false} FoldShape(fullRegex: string, pieces: seq<string>)
    ensures Fold(fullRegex, pieces) == fullRegex + Parenthesize(PieceBodies(pieces))
    decreases |pieces|
  {
    if pieces != [] {
      var x := PieceRegex(pieces[0]);
      FoldShape(fullRegex + "(" + x + ")(.*)", pieces[1..]);
      ParenthesizeAppend([x, Wildcard], PieceBodies(pieces[1..]));
      assert Parenthesize([x, Wildcard]) == "(" + x + ")(.*)" by {
        assert [x, Wildcard][1..] == [Wildcard];
      }
    }
  }

  /** The regex is the group bodies, each in parentheses. */
  lemma RegexShape(pattern: string)
    ensures PatternRegex(pattern) == Parenthesize(GroupBodies(Split(pattern, '%')))
  {
    var pieces := Split(pattern, '%');
    FoldShape("(.*)", pieces);
    ParenthesizeAppend([Wildcard], PieceBodies(pieces));
  }

  /** There are 2k + 1 group bodies for k pieces; even positions hold the wildcard and odd
      position 2j + 1 the regex of piece j. */
  lemma {:induction false} GroupBodiesAt(pieces: seq<string>)
    ensures |PieceBodies(pieces)| == 2 * |pieces|
    ensures forall j :: 0 <= j < |pieces| ==>
      PieceBodies(pieces)[2 * j] == PieceRegex(pieces[j]) && PieceBodies(pieces)[2 * j + 1] == Wildcard
    decreases |pieces|
  {
    if pieces != [] {
      GroupBodiesAt(pieces[1..]);
      var b := PieceBodies(pieces);
      forall j | 0 <= j < |pieces|
        ensures b[2 * j] == PieceRegex(pieces[j]) && b[2 * j + 1] == Wildcard
      {
        if j > 0 {
          assert b[2 * j] == PieceBodies(pieces[1..])[2 * (j - 1)];
          assert b[2 * j + 1] == PieceBodies(pieces[1..])[2 * (j - 1) + 1];
        }
      }
    }
  }

  lemma GroupBodyKinds(pieces: seq<string>, i: nat)
    requires i < 2 * |pieces| + 1
    ensures |GroupBodies(pieces)| == 2 * |pieces| + 1
    ensures i % 2 == 0 ==> GroupBodies(pieces)[i] == Wildcard
    ensures i % 2 == 1 ==> GroupBodies(pieces)[i] == PieceRegex(pieces[i / 2])
  {
    GroupBodiesAt(pieces);
    if i > 0 {
      assert GroupBodies(pieces)[i] == PieceBodies(pieces)[i - 1];
      if i % 2 == 1 {
        assert i - 1 == 2 * (i / 2);
      } else {
        assert i - 1 == 2 * ((i - 1) / 2) + 1;
      }
    }
  }

  /** The regex of a piece is never the wildcard: its `*`, if any, is escaped. */
  lemma PieceRegexIsNotWildcard(piece: string)
    ensures PieceRegex(piece) != Wildcard
  {
    PieceRegexMeaning(piece);
  }

  /** Each body opens no group of its own and ends cleanly. */
  predicate PlainBody(body: string)
  {
    Operator('\\') !in Lex(body) && Operator('(') !in Lex(body)
  }

  lemma PieceBodiesArePlain(pieces: seq<string>)
    ensures forall k :: 0 <= k < |GroupBodies(pieces)| ==> PlainBody(GroupBodies(pieces)[k])
  {
    GroupBodiesAt(pieces);
    forall k | 0 <= k < |GroupBodies(pieces)|
      ensures PlainBody(GroupBodies(pieces)[k])
    {
      GroupBodyKinds(pieces, k);
      if k % 2 == 1 {
        PieceRegexMeaning(pieces[k / 2]);
      } else {
        assert Lex(Wildcard) == [Operator('.'), Operator('*')];
      }
    }
  }

  /** An unescaped syntax character other than the backslash is read as an operator. */
  lemma LexOperator(c: char, r: string)
    requires IsSyntaxCharacter(c) && c != '\\'
    ensures Lex([c] + r) == [Operator(c)] + Lex(r)
  {
  }

  /** One parenthesized plain body reads as its own tokens between `(` and `)`. */
  lemma LexParenthesized(b: string, rest: string)
    requires PlainBody(b)
    ensures Lex("(" + b + ")" + rest) == [Operator('(')] + Lex(b) + [Operator(')')] + Lex(rest)
  {
    var closing := [')'] + rest;
    LexOperator(')', rest);
    var inner := b + closing;
    LexAppend(b, closing);
    LexOperator('(', inner);
    assert "(" + b + ")" + rest == ['('] + inner;
  }

  lemma {:induction false} ParenthesizedGroups(bodies: seq<string>)
    requires forall k :: 0 <= k < |bodies| ==> PlainBody(bodies[k])
    ensures Operator('\\') !in Lex(Parenthesize(bodies))
    ensures multiset(Lex(Parenthesize(bodies)))[Operator('(')] == |bodies|
    decreases |bodies|
  {
    if bodies != [] {
      var b := bodies[0];
      var rest := Parenthesize(bodies[1..]);
      ParenthesizedGroups(bodies[1..]);
      LexParenthesized(b, rest);
      var ts := Lex(Parenthesize(bodies));
      assert ts == [Operator('(')] + Lex(b) + [Operator(')')] + Lex(rest);
      assert multiset(Lex(b))[Operator('(')] == 0;
      assert multiset(ts) == multiset([Operator('(')]) + multiset(Lex(b))
        + multiset([Operator(')')]) + multiset(Lex(rest));
    }
  }

  /** A pattern with k `%` gives a regex with 2k + 3 capture groups: one per piece and one per
      span around and between the pieces. */
  lemma CaptureGroups(pattern: string)
    ensures CaptureGroupCount(PatternRegex(pattern)) == 2 * |Split(pattern, '%')| + 1
    ensures CaptureGroupCount(PatternRegex(pattern)) == 2 * Occurrences(pattern, '%') + 3
  {
    var pieces := Split(pattern, '%');
    RegexShape(pattern);
    GroupBodiesAt(pieces);
    PieceBodiesArePlain(pieces);
    ParenthesizedGroups(GroupBodies(pieces));
  }
}
