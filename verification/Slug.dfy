/** Airline slugs and airline codes (aviation/master_data/normalize.py,
    aviation/aviation_identity_governance.py), from the ASCII stage on.

    The slug is computed by the source's chain of string edits; `Words` and `Join`
    are an independent reading of it: the runs of letters and digits, lower-cased,
    joined by single hyphens.
 */
module Slug {
  // ----- character classes of an ASCII text -----

  predicate Space(c: char) {
    c == ' ' || '\t' <= c <= '\r' || '\U{1c}' <= c <= '\U{1f}'
  }

  predicate Blank(c: char) { Space(c) || c == '_' }
  predicate Hyphen(c: char) { c == '-' }
  predicate Separator(c: char) { Blank(c) || Hyphen(c) }
  predicate Alnum(c: char) { 'a' <= c <= 'z' || '0' <= c <= '9' }
  predicate Upper(c: char) { 'A' <= c <= 'Z' }

  /** The class [\w\s-]; everything else is deleted. */
  predicate Kept(c: char) { Alnum(c) || Upper(c) || Separator(c) }

  // ----- the chain of edits -----

  function LowerChar(c: char): char {
    if Upper(c) then (c as int + 32) as char else c
  }

  function Lower(s: string): string {
    if s == "" then "" else [LowerChar(s[0])] + Lower(s[1..])
  }

  function StripLeft(s: string, p: char -> bool): string {
    if s != "" && p(s[0]) then StripLeft(s[1..], p) else s
  }

  function StripRight(s: string, p: char -> bool): string {
    if s != "" && p(s[|s| - 1]) then StripRight(s[..|s| - 1], p) else s
  }

  function Strip(s: string, p: char -> bool): string {
    StripRight(StripLeft(s, p), p)
  }

  function Keep(s: string): string {
    if s == "" then "" else (if Kept(s[0]) then [s[0]] else "") + Keep(s[1..])
  }

  /** Replace every maximal run of characters in `p` by one hyphen. */
  function Squeeze(s: string, p: char -> bool): (r: string)
    ensures s == "" ==> r == ""
    ensures s != "" ==> r != "" && r[0] == if p(s[0]) then '-' else s[0]
  {
    if s == "" then ""
    else if !p(s[0]) then [s[0]] + Squeeze(s[1..], p)
    else if |s| > 1 && p(s[1]) then Squeeze(s[1..], p)
    else "-" + Squeeze(s[1..], p)
  }

  function NormalizeAirlineSlug(name: string): string {
    var text := Strip(Lower(name), Space);
    Strip(Squeeze(Squeeze(Keep(text), Blank), Hyphen), Hyphen)
  }

  // ----- the reading in words -----

  /** The maximal runs of non-separators, in order. */
  function Words(s: string): (ws: seq<string>)
    ensures s != "" && !Separator(s[0]) ==> ws != []
    ensures s != "" && !Separator(s[|s| - 1]) ==> ws != []
  {
    if s == "" then []
    else
      var ws := Words(s[1..]);
      if Separator(s[0]) then ws
      else if |s| == 1 || Separator(s[1]) then [[s[0]]] + ws
      else [[s[0]] + ws[0]] + ws[1..]
  }

  function Join(ws: seq<string>): string {
    if ws == [] then "" else if |ws| == 1 then ws[0] else ws[0] + "-" + Join(ws[1..])
  }

  lemma {:induction false} SqueezeTwice(s: string)
    ensures Squeeze(Squeeze(s, Blank), Hyphen) == Squeeze(s, Separator)
  {
    if s != "" {
      SqueezeTwice(s[1..]);
      var r := Squeeze(s, Blank);
      if !Blank(s[0]) || |s| == 1 || !Blank(s[1]) {
        assert r[1..] == Squeeze(s[1..], Blank);
      }
    }
  }

  function Edge(c: char): string { if Separator(c) then "-" else "" }

  /** Squeezing leaves the joined words, with one hyphen more at an end of the text
      that was a separator. */
  lemma {:induction false} SqueezeIsJoin(s: string)
    requires s != ""
    ensures Squeeze(s, Separator) ==
              if Words(s) == [] then "-" else Edge(s[0]) + Join(Words(s)) + Edge(s[|s| - 1])
    decreases |s|
  {
    var t := s[1..];
    if t == "" {
      assert Words(t) == [];
    } else {
      SqueezeIsJoin(t);
      assert t[|t| - 1] == s[|s| - 1];
      assert s == [s[0]] + t;
      SqueezeStep(s[0], t, Edge(s[|s| - 1]));
    }
  }

  lemma SqueezeCons(c: char, t: string)
    requires t != ""
    ensures Squeeze([c] + t, Separator) ==
              if !Separator(c) then [c] + Squeeze(t, Separator)
              else if Separator(t[0]) then Squeeze(t, Separator) else "-" + Squeeze(t, Separator)
    ensures Words([c] + t) ==
              if Separator(c) then Words(t)
              else if Separator(t[0]) then [[c]] + Words(t) else [[c] + Words(t)[0]] + Words(t)[1..]
  {
    var s := [c] + t;
    assert s[1..] == t && s[1] == t[0];
  }

  lemma Glue(sep: bool, sepNext: bool, c: char, q: string, q': string, j: string, j': string, tail: string)
    requires q == (if sepNext then "-" else "") + j + tail
    requires q' == if !sep then [c] + q else if sepNext then q else "-" + q
    requires j' == if sep then j else if sepNext then [c] + "-" + j else [c] + j
    ensures q' == (if sep then "-" else "") + j' + tail
  {
  }

  lemma JoinOfCons(c: char, t: string)
    requires t != "" && Words(t) != []
    ensures Join(Words([c] + t)) ==
              if Separator(c) then Join(Words(t))
              else if Separator(t[0]) then [c] + "-" + Join(Words(t)) else [c] + Join(Words(t))
  {
    SqueezeCons(c, t);
    if !Separator(c) {
      if Separator(t[0]) {
        assert ([[c]] + Words(t))[1..] == Words(t);
      } else {
        JoinPrepend(c, Words(t));
      }
    }
  }

  lemma EdgesOfBlank(t: string)
    requires t != "" && Words(t) == []
    ensures Separator(t[0]) && Separator(t[|t| - 1])
  {
    hide Separator;
  }

  lemma SqueezeStep(c: char, t: string, tail: string)
    requires t != "" && tail == Edge(t[|t| - 1])
    requires Squeeze(t, Separator) == if Words(t) == [] then "-" else Edge(t[0]) + Join(Words(t)) + tail
    ensures var s := [c] + t;
            Squeeze(s, Separator) == if Words(s) == [] then "-" else Edge(c) + Join(Words(s)) + tail
  {
    var s := [c] + t;
    SqueezeCons(c, t);
    hide Squeeze, Words;
    if Words(t) == [] {
      assert Separator(t[0]) && tail == "-" by { EdgesOfBlank(t); }
    } else {
      JoinOfCons(c, t);
      Glue(Separator(c), Separator(t[0]), c, Squeeze(t, Separator), Squeeze(s, Separator),
           Join(Words(t)), Join(Words(s)), tail);
    }
  }

  lemma JoinPrepend(c: char, ws: seq<string>)
    requires ws != []
    ensures Join([[c] + ws[0]] + ws[1..]) == [c] + Join(ws)
  {
    assert ([[c] + ws[0]] + ws[1..])[1..] == ws[1..];
  }

  /** A word of a slug: lower-case letters and digits only. */
  predicate Plain(w: string) {
    w != "" && forall i | 0 <= i < |w| :: Alnum(w[i])
  }

  predicate AllPlain(ws: seq<string>) {
    forall i | 0 <= i < |ws| :: Plain(ws[i])
  }

  predicate Clean(s: string) {
    forall i | 0 <= i < |s| :: Alnum(s[i]) || Separator(s[i])
  }

  lemma {:induction false} WordsArePlain(s: string)
    requires Clean(s)
    ensures AllPlain(Words(s))
  {
    if s != "" {
      WordsArePlain(s[1..]);
    }
  }

  lemma {:induction false} JoinEnds(ws: seq<string>)
    requires AllPlain(ws) && ws != []
    ensures var j := Join(ws); j != "" && Alnum(j[0]) && Alnum(j[|j| - 1])
  {
    if |ws| > 1 {
      JoinEnds(ws[1..]);
    }
  }

  /** On a clean text, stripping the squeezed text gives the joined words. */
  lemma StripSqueezed(s: string)
    requires Clean(s)
    ensures Strip(Squeeze(s, Separator), Hyphen) == Join(Words(s))
  {
    WordsArePlain(s);
    if s != "" {
      SqueezeIsJoin(s);
      var ws := Words(s);
      if ws == [] {
        assert "-"[1..] == "";
      } else {
        JoinEnds(ws);
        StripAround(Edge(s[0]), Join(ws), Edge(s[|s| - 1]));
      }
    }
  }

  lemma StripAround(head: string, body: string, tail: string)
    requires head in {"", "-"} && tail in {"", "-"}
    requires body != "" && !Hyphen(body[0]) && !Hyphen(body[|body| - 1])
    ensures Strip(head + body + tail, Hyphen) == body
  {
    var s := head + body + tail;
    var t := body + tail;
    assert StripLeft(s, Hyphen) == t by {
      if head == "" {
        assert s == t;
      } else {
        assert s[1..] == t && StripLeft(t, Hyphen) == t;
      }
    }
    if tail == "" {
      assert t == body;
    } else {
      assert t[..|t| - 1] == body && t[|t| - 1] == '-';
      assert StripRight(body, Hyphen) == body;
    }
  }

  // ----- the outer strip of white space changes no word -----

  lemma {:induction false} WordsSkipLeft(pad: string, s: string)
    requires forall i | 0 <= i < |pad| :: Separator(pad[i])
    ensures Words(pad + s) == Words(s)
  {
    if pad == "" {
      assert pad + s == s;
    } else {
      assert (pad + s)[1..] == pad[1..] + s;
      WordsSkipLeft(pad[1..], s);
    }
  }

  lemma {:induction false} WordsSkipRight(s: string, c: char)
    requires Separator(c)
    ensures Words(s + [c]) == Words(s)
  {
    if s == "" {
      assert s + [c] == [c] && [c][1..] == "";
    } else {
      assert (s + [c])[1..] == s[1..] + [c];
      WordsSkipRight(s[1..], c);
    }
  }

  function Head(c: char): string {
    if Kept(c) then [c] else ""
  }

  lemma KeepHead(s: string)
    requires s != ""
    ensures Keep(s) == Head(s[0]) + Keep(s[1..])
  {
  }

  lemma {:induction false} KeepSplit(s: string, t: string)
    ensures Keep(s + t) == Keep(s) + Keep(t)
  {
    assert Keep("") == "";
    hide Keep, Head;
    if s == "" {
      assert s + t == t && "" + Keep(t) == Keep(t);
    } else {
      KeepSplit(s[1..], t);
      assert (s + t)[0] == s[0] && (s + t)[1..] == s[1..] + t;
      KeepHead(s + t);
      KeepHead(s);
      assert Head(s[0]) + (Keep(s[1..]) + Keep(t)) == (Head(s[0]) + Keep(s[1..])) + Keep(t);
    }
  }

  lemma {:induction false} StripLeftKeepsWords(s: string)
    ensures Words(Keep(StripLeft(s, Space))) == Words(Keep(s))
  {
    if s != "" && Space(s[0]) {
      StripLeftKeepsWords(s[1..]);
      assert Keep(s) == [s[0]] + Keep(s[1..]);
      WordsSkipLeft([s[0]], Keep(s[1..]));
    }
  }

  lemma {:induction false} StripRightKeepsWords(s: string)
    ensures Words(Keep(StripRight(s, Space))) == Words(Keep(s))
    decreases |s|
  {
    if s != "" && Space(s[|s| - 1]) {
      var t, c := s[..|s| - 1], s[|s| - 1];
      assert s == t + [c];
      StripRightKeepsWords(t);
      KeepSplit(t, [c]);
      assert Keep([c]) == [c] by { assert [c][1..] == ""; }
      WordsSkipRight(Keep(t), c);
    }
  }

  lemma {:induction false} LowerHasNoUpper(s: string)
    ensures forall c | c in Lower(s) :: !Upper(c)
  {
    if s != "" {
      LowerHasNoUpper(s[1..]);
    }
  }

  lemma {:induction false} KeepIsClean(s: string)
    requires forall c | c in s :: !Upper(c)
    ensures Clean(Keep(s))
  {
    if s != "" {
      KeepIsClean(s[1..]);
    }
  }

  lemma {:induction false} StripIsSlice(s: string, p: char -> bool)
    ensures forall c | c in StripLeft(s, p) :: c in s
    ensures forall c | c in StripRight(s, p) :: c in s
    decreases |s|
  {
    if s != "" {
      StripIsSlice(s[1..], p);
      StripIsSlice(s[..|s| - 1], p);
    }
  }

  // ----- the main results -----

  /** The chain of edits computes the words of the text joined by hyphens. */
  lemma SlugIsJoinedWords(name: string)
    ensures NormalizeAirlineSlug(name) == Join(Words(Keep(Lower(name))))
    ensures AllPlain(Words(Keep(Lower(name))))
  {
    var low := Lower(name);
    var left := StripLeft(low, Space);
    var text := Strip(low, Space);
    LowerHasNoUpper(name);
    StripIsSlice(low, Space);
    StripIsSlice(left, Space);
    KeepIsClean(text);
    KeepIsClean(low);
    SqueezeTwice(Keep(text));
    StripSqueezed(Keep(text));
    StripLeftKeepsWords(low);
    StripRightKeepsWords(left);
    WordsArePlain(Keep(low));
  }

  /** Over a-z, 0-9 and "-", with no double, leading or trailing hyphen. */
  predicate WellFormed(s: string) {
    && (forall i | 0 <= i < |s| :: Alnum(s[i]) || s[i] == '-')
    && (forall i | 0 < i < |s| :: !(s[i - 1] == '-' && s[i] == '-'))
    && (s != "" ==> s[0] != '-' && s[|s| - 1] != '-')
  }

  lemma {:induction false} JoinIsWellFormed(ws: seq<string>)
    requires AllPlain(ws)
    ensures WellFormed(Join(ws))
  {
    if |ws| > 1 {
      JoinIsWellFormed(ws[1..]);
      JoinEnds(ws[1..]);
    }
  }

  /** A well-formed text, or one with a hyphen put before it, is its own squeeze. */
  lemma {:induction false} WellFormedIsSqueezed(s: string)
    requires forall i | 0 <= i < |s| :: Alnum(s[i]) || s[i] == '-'
    requires forall i | 0 < i < |s| :: !(s[i - 1] == '-' && s[i] == '-')
    ensures Squeeze(s, Separator) == s
  {
    if s != "" {
      WellFormedIsSqueezed(s[1..]);
    }
  }

  lemma {:induction false} CleanIsUntouched(s: string)
    requires Clean(s)
    ensures Lower(s) == s && Keep(s) == s
  {
    if s != "" {
      CleanIsUntouched(s[1..]);
    }
  }

  /** The slugs are exactly the well-formed texts: every result is one, and the
      function leaves exactly those unchanged. */
  lemma SlugFixesExactlyWellFormed(name: string)
    ensures WellFormed(NormalizeAirlineSlug(name))
    ensures NormalizeAirlineSlug(name) == name <==> WellFormed(name)
  {
    SlugIsJoinedWords(name);
    JoinIsWellFormed(Words(Keep(Lower(name))));
    if WellFormed(name) {
      CleanIsUntouched(name);
      WellFormedIsSqueezed(name);
      StripSqueezed(name);
      StripOfWellFormed(name);
    }
  }

  lemma StripOfWellFormed(s: string)
    requires WellFormed(s)
    ensures Strip(s, Hyphen) == s
  {
  }

  lemma SlugIsIdempotent(name: string)
    ensures NormalizeAirlineSlug(NormalizeAirlineSlug(name)) == NormalizeAirlineSlug(name)
  {
    SlugFixesExactlyWellFormed(name);
    SlugFixesExactlyWellFormed(NormalizeAirlineSlug(name));
  }

  // ----- the characters, one by one -----

  const LETTERS := {'a', 'b', 'c', 'd', 'e', 'f', 'g', 'h', 'i', 'j', 'k', 'l', 'm',
                    'n', 'o', 'p', 'q', 'r', 's', 't', 'u', 'v', 'w', 'x', 'y', 'z'}
  const CAPITALS := {'A', 'B', 'C', 'D', 'E', 'F', 'G', 'H', 'I', 'J', 'K', 'L', 'M',
                     'N', 'O', 'P', 'Q', 'R', 'S', 'T', 'U', 'V', 'W', 'X', 'Y', 'Z'}
  const DIGITS := {'0', '1', '2', '3', '4', '5', '6', '7', '8', '9'}
  const SPACES := {' ', '\t', '\n', '\U{b}', '\U{c}', '\r', '\U{1c}', '\U{1d}', '\U{1e}', '\U{1f}'}

  lemma CharClasses(c: char)
    ensures Alnum(c) <==> c in LETTERS || c in DIGITS
    ensures Upper(c) <==> c in CAPITALS
    ensures Space(c) <==> c in SPACES
  {
  }

  lemma {:induction false} OneWord(w: string)
    requires Plain(w)
    ensures Words(w) == [w]
  {
    if |w| > 1 {
      OneWord(w[1..]);
      assert w == [w[0]] + w[1..] && [w[1..]][1..] == [];
    } else {
      assert w == [w[0]] && Words(w[1..]) == [];
    }
  }

  lemma TwoWords(a: char, c: char, b: char)
    requires Alnum(a) && Separator(c) && Alnum(b)
    ensures Words([a, c, b]) == [[a], [b]]
  {
    SqueezeCons(c, [b]);
    SqueezeCons(a, [c, b]);
    OneWord([b]);
    assert [c] + [b] == [c, b] && [a] + [c, b] == [a, c, b];
  }

  lemma LowerOfThree(c: char)
    ensures Lower(['a', c, 'b']) == ['a', LowerChar(c), 'b']
  {
    var s := ['a', c, 'b'];
    assert LowerChar('a') == 'a' && LowerChar('b') == 'b';
    LowerIsPointwise(s);
    hide *;
    assert |Lower(s)| == 3 && Lower(s)[0] == 'a' && Lower(s)[1] == LowerChar(c) && Lower(s)[2] == 'b';
  }

  lemma KeepOfThree(d: char)
    ensures Keep(['a', d, 'b']) == if Kept(d) then ['a', d, 'b'] else "ab"
  {
    assert Head('a') == "a" && Head('b') == "b" && Head(d) == if Kept(d) then [d] else "";
    KeepHead(['a', d, 'b']);
    KeepHead([d, 'b']);
    KeepHead("b");
    assert Keep("") == "";
    hide *;
    assert ['a', d, 'b'][1..] == [d, 'b'] && [d, 'b'][1..] == "b" && "b"[1..] == "";
  }

  lemma SlugOfThree(c: char)
    ensures var d, slug := LowerChar(c), NormalizeAirlineSlug(['a', c, 'b']);
            slug == if Separator(d) then "a-b" else if Kept(d) then ['a', d, 'b'] else "ab"
  {
    var s, d := ['a', c, 'b'], LowerChar(c);
    LowerOfThree(c);
    KeepOfThree(d);
    SlugIsJoinedWords(s);
    assert Kept(d) && !Separator(d) ==> Alnum(d);
    hide LowerChar, Keep, Lower, NormalizeAirlineSlug, Words;
    if Separator(d) {
      TwoWords('a', d, 'b');
      assert Join(["a", "b"]) == "a-b" by { assert ["a", "b"][1..] == ["b"]; }
    } else if Kept(d) {
      OneWord(['a', d, 'b']);
    } else {
      OneWord("ab");
    }
  }

  /** What one character between two letters becomes: a letter or a digit stays, a
      capital loses its case, white space and "_" and "-" become one hyphen, and
      everything else goes. */
  lemma EveryCharacter(c: char)
    ensures NormalizeAirlineSlug(['a', c, 'b']) ==
              if c in LETTERS || c in DIGITS then ['a', c, 'b']
              else if c in CAPITALS then ['a', (c as int + 32) as char, 'b']
              else if c in SPACES || c in {'_', '-'} then "a-b" else "ab"
  {
    SlugOfThree(c);
    CharClasses(c);
    hide NormalizeAirlineSlug;
  }

  // ----- names of letters and digits -----

  lemma {:induction false} LowerIsPointwise(s: string)
    ensures |Lower(s)| == |s| && forall i | 0 <= i < |s| :: Lower(s)[i] == LowerChar(s[i])
  {
    if s != "" {
      hide LowerChar;
      LowerIsPointwise(s[1..]);
    }
  }

  lemma LowerTwice(s: string)
    ensures Lower(Lower(s)) == Lower(s)
  {
    LowerIsPointwise(s);
    LowerIsPointwise(Lower(s));
    hide Lower;
    assert forall i | 0 <= i < |s| :: Lower(Lower(s))[i] == Lower(s)[i];
  }

  lemma SlugOfLower(s: string)
    ensures NormalizeAirlineSlug(Lower(s)) == NormalizeAirlineSlug(s)
  {
    hide *;
    SlugIsJoinedWords(s);
    SlugIsJoinedWords(Lower(s));
    LowerTwice(s);
  }

  lemma LowerCharIsPlain(c: char)
    requires c in LETTERS || c in CAPITALS || c in DIGITS
    ensures Alnum(LowerChar(c))
  {
    CharClasses(c);
  }

  lemma SlugOfWord(w: string)
    requires forall i | 0 <= i < |w| :: Alnum(w[i])
    ensures NormalizeAirlineSlug(w) == w
  {
    SlugFixesExactlyWellFormed(w);
    hide NormalizeAirlineSlug;
  }

  /** A name of letters and digits keeps all of them, in lower case. */
  lemma SlugOfLetters(s: string)
    requires forall i | 0 <= i < |s| :: s[i] in LETTERS || s[i] in CAPITALS || s[i] in DIGITS
    ensures NormalizeAirlineSlug(s) == Lower(s)
  {
    LowerIsPointwise(s);
    hide *;
    forall i | 0 <= i < |Lower(s)| ensures Alnum(Lower(s)[i]) {
      LowerCharIsPlain(s[i]);
    }
    SlugOfLower(s);
    SlugOfWord(Lower(s));
  }
}
