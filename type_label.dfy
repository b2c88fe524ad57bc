/**
 * The node-type label of a search-result row (src/main.js, renderResults): the node type is cut
 * into its maximal runs of characters other than `_`, each run is capitalised (first character
 * upper case, the rest lower case) and the runs are joined with nothing between them, so that
 * `CONFIGURED_TARGET` becomes `ConfiguredTarget`. Case mapping is restricted to ASCII letters.
 */
module TypeLabel {

  function ToUpper(c: char): (u: char)
    ensures c != '_' ==> u != '_'
  {
    if 'a' <= c <= 'z' then (c as int - 32) as char else c
  }

  function ToLower(c: char): (l: char)
    ensures c != '_' ==> l != '_'
  {
    if 'A' <= c <= 'Z' then (c as int + 32) as char else c
  }

  function LowerAll(s: string): (r: string)
    ensures |r| == |s|
    ensures forall i :: 0 <= i < |s| ==> r[i] == ToLower(s[i])
  {
    if s == [] then [] else [ToLower(s[0])] + LowerAll(s[1..])
  }

  /** The characters of `s` other than `_`, in order. */
  function WithoutUnderscores(s: string): string
  {
    if s == [] then []
    else if s[0] == '_' then WithoutUnderscores(s[1..])
    else [s[0]] + WithoutUnderscores(s[1..])
  }

  /** The length of the longest prefix of `s` free of `_`. */
  function RunLength(s: string): (n: nat)
    ensures n <= |s|
    ensures forall i :: 0 <= i < n ==> s[i] != '_'
    ensures n < |s| ==> s[n] == '_'
  {
    if s == [] || s[0] == '_' then 0 else 1 + RunLength(s[1..])
  }

  /** The matches of /[^_]+/g in `s`, in order. */
  function Words(s: string): (ws: seq<string>)
    ensures forall k :: 0 <= k < |ws| ==> |ws[k]| > 0 && '_' !in ws[k]
    decreases |s|
  {
    if s == [] then []
    else if s[0] == '_' then Words(s[1..])
    else
      var n := RunLength(s);
      [s[..n]] + Words(s[n..])
  }

  /** A word with its first character upper-cased and every other character lower-cased. */
  function Capitalize(w: string): (c: string)
    ensures |c| == |w|
    ensures |w| > 0 ==> c[0] == ToUpper(w[0])
    ensures forall i :: 1 <= i < |w| ==> c[i] == ToLower(w[i])
    ensures '_' !in w ==> '_' !in c
  {
    if w == [] then [] else [ToUpper(w[0])] + LowerAll(w[1..])
  }

  /** The capitalised words, joined with nothing between them: as long as the words together,
      and free of `_` when they are. */
  function CapitalizeAll(ws: seq<string>): (r: string)
    ensures |r| == |Concat(ws)|
    ensures (forall k :: 0 <= k < |ws| ==> '_' !in ws[k]) ==> '_' !in r
  {
    if ws == [] then [] else Capitalize(ws[0]) + CapitalizeAll(ws[1..])
  }

  /** The label shown for node type `nodeType`: it holds no `_`, and it has one character for
      each character of `nodeType` that is not `_`. */
  function Label(nodeType: string): (text: string)
    ensures '_' !in text
    ensures |text| == |WithoutUnderscores(nodeType)|
  {
    LabelIsCharacterwise(nodeType);
    CharacterwiseShape(nodeType, true);
    CapitalizeAll(Words(nodeType))
  }

  // ---------------------------------------------------------------------------------------
  // An independent, character-by-character definition of the label

  /** Drops every `_` and maps each remaining character to upper case when it starts a run
      (`atStart`: it is first in the string or follows a `_`) and to lower case otherwise. */
  function Characterwise(s: string, atStart: bool): string
  {
    if s == [] then []
    else if s[0] == '_' then Characterwise(s[1..], true)
    else [if atStart then ToUpper(s[0]) else ToLower(s[0])] + Characterwise(s[1..], false)
  }

  lemma {:induction false} CharacterwiseShape(s: string, atStart: bool)
    ensures '_' !in Characterwise(s, atStart)
    ensures |Characterwise(s, atStart)| == |WithoutUnderscores(s)|
  {
    if s != [] {
      CharacterwiseShape(s[1..], s[0] == '_');
    }
  }

  /** Inside a run, every character is lower-cased. */
  lemma {:induction false} CharacterwiseInsideRun(w: string, t: string)
    requires '_' !in w
    ensures Characterwise(w + t, false) == LowerAll(w) + Characterwise(t, false)
  {
    if w == [] {
      assert w + t == t;
    } else {
      assert (w + t)[1..] == w[1..] + t;
      CharacterwiseInsideRun(w[1..], t);
    }
  }

  /** After a run, the next character is either absent or a `_`, so where the run ended no
      longer matters. */
  lemma CharacterwiseAtBoundary(t: string)
    requires t == [] || t[0] == '_'
    ensures Characterwise(t, false) == Characterwise(t, true)
  {
  }

  /** The label of Words/Capitalize is the character-by-character label. */
  lemma {:induction false} LabelIsCharacterwise(s: string)
    ensures CapitalizeAll(Words(s)) == Characterwise(s, true)
    decreases |s|
  {
    if s == [] {
    } else if s[0] == '_' {
      LabelIsCharacterwise(s[1..]);
    } else {
      var n := RunLength(s);
      var t := s[n..];
      CapitalizedRun(s);
      CharacterwiseRun(s);
      LabelIsCharacterwise(t);
      CharacterwiseAtBoundary(t);
    }
  }

  /** The Words/Capitalize label of a string that starts with a run: the capitalised run, then
      the label of the rest. */
  lemma CapitalizedRun(s: string)
    requires s != [] && s[0] != '_'
    ensures var n := RunLength(s);
      CapitalizeAll(Words(s)) == [ToUpper(s[0])] + LowerAll(s[1..n]) + CapitalizeAll(Words(s[n..]))
  {
  }

  /** The character-by-character label of a string that starts with a run: the run with its
      first character upper-cased and the others lower-cased, then the rest read inside a run. */
  lemma CharacterwiseRun(s: string)
    requires s != [] && s[0] != '_'
    ensures var n := RunLength(s);
      Characterwise(s, true) == [ToUpper(s[0])] + LowerAll(s[1..n]) + Characterwise(s[n..], false)
  {
    var n := RunLength(s);
    assert s[1..] == s[1..n] + s[n..];
    CharacterwiseInsideRun(s[1..n], s[n..]);
  }

  /** The words cover the input: joined together they are its characters other than `_`. */
  lemma {:induction false} WordsCoverInput(s: string)
    ensures Concat(Words(s)) == WithoutUnderscores(s)
    decreases |s|
  {
    if s == [] {
    } else if s[0] == '_' {
      WordsCoverInput(s[1..]);
    } else {
      var n := RunLength(s);
      var w, t := s[..n], s[n..];
      assert s == w + t;
      WordsCoverInput(t);
      WithoutUnderscoresOfRun(w, t);
    }
  }

  function Concat(ws: seq<string>): string
  {
    if ws == [] then [] else ws[0] + Concat(ws[1..])
  }

  lemma {:induction false} WithoutUnderscoresOfRun(w: string, t: string)
    requires '_' !in w
    ensures WithoutUnderscores(w + t) == w + WithoutUnderscores(t)
  {
    if w == [] {
      assert w + t == t;
    } else {
      assert (w + t)[1..] == w[1..] + t;
      WithoutUnderscoresOfRun(w[1..], t);
    }
  }
}
