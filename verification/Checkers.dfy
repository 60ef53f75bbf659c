/** The three output checkers. Text is a sequence of characters; what counts as white space is what Python's
    `str.isspace` says of single characters. */
module Checkers {

  // ----- Python's string methods -----

  predicate IsSpace(c: char) {
    var n := c as int;
    || 9 <= n <= 13 || 28 <= n <= 32 || n == 0x85 || n == 0xA0 || n == 0x1680 || 0x2000 <= n <= 0x200A
    || n == 0x2028 || n == 0x2029 || n == 0x202F || n == 0x205F || n == 0x3000
  }

  predicate AllSpace(s: string) {
    forall i :: 0 <= i < |s| ==> IsSpace(s[i])
  }

  /** `s.rstrip()`. */
  function RStrip(s: string): (r: string)
    ensures r <= s && AllSpace(s[|r|..])
    ensures r != "" ==> !IsSpace(r[|r| - 1])
  {
    if s == "" then ""
    else
      var r := RStrip(s[1..]);
      if r == "" && IsSpace(s[0]) then
        assert forall i :: 0 < i < |s| ==> s[i] == s[1..][i - 1];
        ""
      else
        assert s[1 + |r|..] == s[1..][|r|..];
        [s[0]] + r
  }

  /** `s.split("\n")`. */
  function Lines(s: string): (lines: seq<string>)
    ensures lines != []
  {
    if s == "" then [""]
    else if s[0] == '\n' then [""] + Lines(s[1..])
    else
      var rest := Lines(s[1..]);
      [[s[0]] + rest[0]] + rest[1..]
  }

  /** `s.replace("\r\n", "\n")`. */
  function ReplaceCrLf(s: string): string {
    if s == "" then ""
    else if |s| > 1 && s[0] == '\r' && s[1] == '\n' then "\n" + ReplaceCrLf(s[2..])
    else [s[0]] + ReplaceCrLf(s[1..])
  }

  /** `s.replace("\r", "\n")`. */
  function ReplaceCr(s: string): string {
    if s == "" then "" else [if s[0] == '\r' then '\n' else s[0]] + ReplaceCr(s[1..])
  }

  function WordLength(s: string): (n: nat)
    ensures n <= |s|
    ensures forall i :: 0 <= i < n ==> !IsSpace(s[i])
    ensures n < |s| ==> IsSpace(s[n])
  {
    if s == "" || IsSpace(s[0]) then 0 else 1 + WordLength(s[1..])
  }

  /** `s.split()`. */
  function Tokens(s: string): seq<string>
    decreases |s|
  {
    if s == "" then []
    else if IsSpace(s[0]) then Tokens(s[1..])
    else
      var n := WordLength(s);
      [s[..n]] + Tokens(s[n..])
  }

  // ----- the checkers -----

  function Universal(s: string): string {
    ReplaceCr(ReplaceCrLf(s))
  }

  function Stripped(lines: seq<string>): (r: seq<string>)
    ensures |r| == |lines| && forall i :: 0 <= i < |r| ==> r[i] == RStrip(lines[i])
  {
    seq(|lines|, i requires 0 <= i < |lines| => RStrip(lines[i]))
  }

  /** Without the blank lines at the end. */
  function DropBlank(lines: seq<string>): (r: seq<string>)
    ensures r <= lines && forall i :: |r| <= i < |lines| ==> lines[i] == ""
    ensures r != [] ==> r[|r| - 1] != ""
  {
    if lines == [] then []
    else
      var r := DropBlank(lines[1..]);
      if r == [] && lines[0] == "" then
        assert forall i :: 0 < i < |lines| ==> lines[i] == lines[1..][i - 1];
        []
      else
        assert forall i :: 0 < i < |lines| ==> lines[i] == lines[1..][i - 1];
        [lines[0]] + r
  }

  function Normal(text: string): seq<string> {
    DropBlank(Stripped(Lines(Universal(text))))
  }

  /** `LinesChecker._normalise`. */
  method Normalise(text: string) returns (lines: seq<string>)
    ensures lines == Normal(text)
  {
    lines := Stripped(Lines(Universal(text)));
    while lines != [] && lines[|lines| - 1] == ""
      invariant DropBlank(lines) == Normal(text)
    {
      var shorter := lines[..|lines| - 1];
      PopBlank(lines);
      lines := shorter;
    }
  }

  lemma PopBlank(lines: seq<string>)
    requires lines != [] && lines[|lines| - 1] == ""
    ensures DropBlank(lines[..|lines| - 1]) == DropBlank(lines)
  {
    SameAt(lines[..|lines| - 1], lines);
  }

  predicate ExactCheck(expected: string, actual: string) {
    expected == actual
  }

  predicate WhitespaceCheck(expected: string, actual: string) {
    Tokens(expected) == Tokens(actual)
  }

  method LinesCheck(expected: string, actual: string) returns (ok: bool)
    ensures ok <==> SameLines(expected, actual)
  {
    var e := Normalise(expected);
    var a := Normalise(actual);
    SameLinesIff(expected, actual);
    return e == a;
  }

  // ----- what the lines checker accepts -----

  /** Line k of a text without its trailing white space; past the end there are only blank lines. */
  function LineAt(text: string, k: nat): string {
    At(Stripped(Lines(Universal(text))), k)
  }

  function At(lines: seq<string>, k: nat): string {
    if k < |lines| then lines[k] else ""
  }

  /** Equal line by line, up to trailing white space. */
  ghost predicate SameLines(a: string, b: string) {
    forall k: nat :: LineAt(a, k) == LineAt(b, k)
  }

  lemma NotLonger(a: seq<string>, b: seq<string>)
    requires forall k: nat :: At(a, k) == At(b, k)
    ensures |DropBlank(a)| <= |DropBlank(b)|
  {
    hide DropBlank;
    if DropBlank(a) != [] {
      var last: nat := |DropBlank(a)| - 1;
      assert At(a, last) == At(b, last) && At(a, last) == DropBlank(a)[last];
    }
  }

  lemma SameAt(a: seq<string>, b: seq<string>)
    requires forall k: nat :: At(a, k) == At(b, k)
    ensures DropBlank(a) == DropBlank(b)
  {
    NotLonger(a, b);
    NotLonger(b, a);
    hide DropBlank;
    forall i: nat | i < |DropBlank(a)| ensures DropBlank(a)[i] == DropBlank(b)[i] {
      assert At(a, i) == At(b, i) && At(a, i) == DropBlank(a)[i] && At(b, i) == DropBlank(b)[i];
    }
  }

  /** The lines checker accepts exactly the texts that agree line by line. */
  lemma SameLinesIff(a: string, b: string)
    ensures Normal(a) == Normal(b) <==> SameLines(a, b)
  {
    var (la, lb) := (Stripped(Lines(Universal(a))), Stripped(Lines(Universal(b))));
    hide Universal, Lines, Stripped;
    if Normal(a) == Normal(b) {
      forall k: nat ensures LineAt(a, k) == LineAt(b, k) {
        assert At(la, k) == At(DropBlank(la), k);
        assert At(lb, k) == At(DropBlank(lb), k);
      }
    }
    if SameLines(a, b) {
      forall k: nat ensures At(la, k) == At(lb, k) { assert LineAt(a, k) == LineAt(b, k); }
      SameAt(la, lb);
    }
  }

  // ----- the chain: exact, lines, whitespace -----

  predicate Boundary(s: string) {
    s == "" || IsSpace(s[0])
  }

  /** A character in front of a text starts a word of its own or joins the first one. */
  function Join(c: char, boundary: bool, tokens: seq<string>): seq<string> {
    if IsSpace(c) then tokens
    else if boundary || tokens == [] then [[c]] + tokens
    else [[c] + tokens[0]] + tokens[1..]
  }

  lemma TokensCons(c: char, t: string)
    ensures Tokens([c] + t) == Join(c, Boundary(t), Tokens(t))
    ensures !Boundary(t) ==> Tokens(t) != []
  {
    var s := [c] + t;
    assert s[1..] == t;
    if !IsSpace(c) {
      var n := WordLength(t);
      assert WordLength(s) == 1 + n;
      assert s[..1 + n] == [c] + t[..n] && s[1 + n..] == t[n..];
      if Boundary(t) { assert t[..0] == "" && t[0..] == t; }
    }
  }

  lemma Associative(a: seq<string>, b: seq<string>, c: seq<string>)
    ensures a + (b + c) == a + b + c
  {
  }

  lemma JoinFront(c: char, boundary: bool, front: seq<string>, back: seq<string>)
    requires boundary || front != []
    ensures Join(c, boundary, front + back) == Join(c, boundary, front) + back
  {
    if IsSpace(c) {
    } else if boundary || front == [] {
      Associative([[c]], front, back);
    } else {
      assert (front + back)[1..] == front[1..] + back;
      Associative([[c] + front[0]], front[1..], back);
    }
  }

  lemma FirstRest(a: string, b: string)
    requires a != ""
    ensures [a[0]] + (a[1..] + b) == a + b && [a[0]] + a[1..] == a
  {
  }

  lemma {:induction false} TokensSplit(a: string, b: string)
    requires Boundary(b)
    ensures Tokens(a + b) == Tokens(a) + Tokens(b)
  {
    if a == "" {
      assert a + b == b;
    } else {
      var t := a[1..];
      TokensSplit(t, b);
      TokensCons(a[0], t + b);
      TokensCons(a[0], t);
      JoinFront(a[0], Boundary(t), Tokens(t), Tokens(b));
      FirstRest(a, b);
      assert Boundary(t + b) <==> Boundary(t);
      hide Tokens, Join, Boundary;
    }
  }

  lemma {:induction false} TokensOfSpace(s: string)
    requires AllSpace(s)
    ensures Tokens(s) == []
  {
    if s != "" { TokensOfSpace(s[1..]); }
  }

  lemma TokensOfStripped(s: string)
    ensures Tokens(RStrip(s)) == Tokens(s)
  {
    var r := RStrip(s);
    TokensSplit(r, s[|r|..]);
    TokensOfSpace(s[|r|..]);
    assert r + s[|r|..] == s;
  }

  lemma {:induction false} TokensOfCrLf(s: string)
    ensures Tokens(ReplaceCrLf(s)) == Tokens(s) && (Boundary(ReplaceCrLf(s)) <==> Boundary(s))
    decreases |s|
  {
    if s != "" {
      if |s| > 1 && s[0] == '\r' && s[1] == '\n' {
        TokensOfCrLf(s[2..]);
        assert s[1..][1..] == s[2..];
      } else {
        var t := s[1..];
        TokensOfCrLf(t);
        TokensCons(s[0], t);
        TokensCons(s[0], ReplaceCrLf(t));
        assert [s[0]] + t == s;
      }
    }
  }

  lemma {:induction false} TokensOfCr(s: string)
    ensures Tokens(ReplaceCr(s)) == Tokens(s) && (Boundary(ReplaceCr(s)) <==> Boundary(s))
  {
    if s != "" {
      var t := s[1..];
      TokensOfCr(t);
      TokensCons(s[0], t);
      TokensCons(if s[0] == '\r' then '\n' else s[0], ReplaceCr(t));
      assert [s[0]] + t == s;
    }
  }

  /** The tokens of all lines, one line after the other. */
  function AllTokens(lines: seq<string>): seq<string> {
    if lines == [] then [] else Tokens(lines[0]) + AllTokens(lines[1..])
  }

  lemma AllTokensCons(line: string, lines: seq<string>)
    ensures AllTokens([line] + lines) == Tokens(line) + AllTokens(lines)
  {
    assert ([line] + lines)[1..] == lines;
  }

  lemma {:induction false} TokensOfLines(s: string)
    ensures AllTokens(Lines(s)) == Tokens(s) && (Boundary(Lines(s)[0]) <==> Boundary(s))
  {
    if s == "" {
      AllTokensCons("", []);
    } else {
      var (c, t) := (s[0], s[1..]);
      var rest := Lines(t);
      TokensOfLines(t);
      TokensCons(c, t);
      TokensCons(c, rest[0]);
      AllTokensCons([c] + rest[0], rest[1..]);
      AllTokensCons("", rest);
      JoinFront(c, Boundary(t), Tokens(rest[0]), AllTokens(rest[1..]));
      assert [c] + t == s && Tokens("") == [];
      hide Tokens, Join;
    }
  }

  lemma {:induction false} TokensOfDropBlank(lines: seq<string>)
    ensures AllTokens(DropBlank(lines)) == AllTokens(lines)
  {
    if lines != [] {
      TokensOfDropBlank(lines[1..]);
      var r := DropBlank(lines[1..]);
      assert ([lines[0]] + r)[1..] == r;
    }
  }

  lemma {:induction false} TokensOfAllStripped(lines: seq<string>)
    ensures AllTokens(Stripped(lines)) == AllTokens(lines)
  {
    if lines != [] {
      TokensOfStripped(lines[0]);
      TokensOfAllStripped(lines[1..]);
      assert Stripped(lines)[1..] == Stripped(lines[1..]);
    }
  }

  /** The normal form of a text keeps all its words. */
  lemma TokensOfNormal(text: string)
    ensures AllTokens(Normal(text)) == Tokens(text)
  {
    TokensOfCrLf(text);
    TokensOfCr(ReplaceCrLf(text));
    TokensOfLines(Universal(text));
    TokensOfAllStripped(Lines(Universal(text)));
    TokensOfDropBlank(Stripped(Lines(Universal(text))));
  }

  // ----- what the whitespace checker accepts -----

  predicate IsWord(w: string) {
    w != "" && forall i :: 0 <= i < |w| ==> !IsSpace(w[i])
  }

  /** The words with a gap before each of them and one behind the last. */
  function Woven(words: seq<string>, gaps: seq<string>): string
    requires |gaps| == |words| + 1
  {
    if words == [] then gaps[0] else gaps[0] + (words[0] + Woven(words[1..], gaps[1..]))
  }

  /** The gaps are white space, and those between two words are not empty. */
  predicate IsGaps(gaps: seq<string>) {
    && (forall i :: 0 <= i < |gaps| ==> AllSpace(gaps[i]))
    && (forall i :: 0 < i < |gaps| - 1 ==> gaps[i] != "")
  }

  /** The text is these words, in this order, set apart by white space and with any white space around them. */
  ghost predicate HasWords(text: string, words: seq<string>) {
    && (forall i :: 0 <= i < |words| ==> IsWord(words[i]))
    && exists gaps :: |gaps| == |words| + 1 && IsGaps(gaps) && text == Woven(words, gaps)
  }

  lemma {:induction false} SpaceFront(gap: string, text: string)
    requires AllSpace(gap)
    ensures Tokens(gap + text) == Tokens(text)
  {
    if gap == "" {
      assert gap + text == text;
    } else {
      assert (gap + text)[1..] == gap[1..] + text;
      SpaceFront(gap[1..], text);
    }
  }

  lemma OneWord(w: string)
    requires IsWord(w)
    ensures Tokens(w) == [w]
  {
    assert WordLength(w) == |w|;
    assert w[..|w|] == w && w[|w|..] == "";
  }

  lemma {:induction false} TokensOfWoven(words: seq<string>, gaps: seq<string>)
    requires |gaps| == |words| + 1 && IsGaps(gaps) && forall i :: 0 <= i < |words| ==> IsWord(words[i])
    ensures Tokens(Woven(words, gaps)) == words
    decreases |words|
  {
    if words == [] {
      TokensOfSpace(gaps[0]);
    } else {
      var rest := Woven(words[1..], gaps[1..]);
      TokensOfWoven(words[1..], gaps[1..]);
      SpaceFront(gaps[0], words[0] + rest);
      WovenBoundary(words[1..], gaps[1..]);
      TokensSplit(words[0], rest);
      OneWord(words[0]);
      hide Tokens, Woven;
      assert [words[0]] + words[1..] == words;
    }
  }

  lemma WovenBoundary(words: seq<string>, gaps: seq<string>)
    requires |gaps| == |words| + 1 && AllSpace(gaps[0]) && (words == [] || gaps[0] != "")
    ensures Boundary(Woven(words, gaps))
  {
  }

  lemma {:induction false} WeaveTokens(s: string) returns (gaps: seq<string>)
    ensures |gaps| == |Tokens(s)| + 1 && IsGaps(gaps) && s == Woven(Tokens(s), gaps)
    ensures forall i :: 0 <= i < |Tokens(s)| ==> IsWord(Tokens(s)[i])
    ensures s != "" && IsSpace(s[0]) ==> gaps[0] != ""
    decreases |s|
  {
    if s == "" {
      gaps := [""];
    } else if IsSpace(s[0]) {
      var more := WeaveTokens(s[1..]);
      gaps := [[s[0]] + more[0]] + more[1..];
      WidenGap(s[0], Tokens(s), more);
      assert s == [s[0]] + s[1..];
    } else {
      var n := WordLength(s);
      var more := WeaveTokens(s[n..]);
      gaps := [""] + more;
      var words := Tokens(s);
      assert words[1..] == Tokens(s[n..]) && gaps[1..] == more;
      assert s == "" + (s[..n] + s[n..]);
      FrontGap(words[1..], more, s[n..]);
    }
  }

  /** A text that does not begin with white space begins with its first word. */
  lemma FrontGap(words: seq<string>, gaps: seq<string>, s: string)
    requires |gaps| == |words| + 1 && IsGaps(gaps) && s == Woven(words, gaps)
    requires s == "" || gaps[0] != ""
    requires forall i :: 0 <= i < |words| ==> IsWord(words[i])
    ensures IsGaps([""] + gaps)
  {
    var more := [""] + gaps;
    forall i | 0 <= i < |more| ensures AllSpace(more[i]) && (0 < i < |more| - 1 ==> more[i] != "") {
      if i > 0 { assert more[i] == gaps[i - 1]; }
    }
  }

  lemma WidenGap(c: char, words: seq<string>, gaps: seq<string>)
    requires |gaps| == |words| + 1 && IsGaps(gaps) && IsSpace(c)
    ensures var more := [[c] + gaps[0]] + gaps[1..]; IsGaps(more) && Woven(words, more) == [c] + Woven(words, gaps)
  {
    WiderGaps(c, gaps);
    WiderWoven(c, words, gaps);
    hide *;
  }

  lemma WiderGaps(c: char, gaps: seq<string>)
    requires gaps != [] && IsGaps(gaps) && IsSpace(c)
    ensures IsGaps([[c] + gaps[0]] + gaps[1..])
  {
    var more := [[c] + gaps[0]] + gaps[1..];
    assert forall i :: 0 < i < |more| ==> more[i] == gaps[i];
    assert AllSpace([c] + gaps[0]);
  }

  lemma WiderWoven(c: char, words: seq<string>, gaps: seq<string>)
    requires |gaps| == |words| + 1
    ensures Woven(words, [[c] + gaps[0]] + gaps[1..]) == [c] + Woven(words, gaps)
  {
    var more := [[c] + gaps[0]] + gaps[1..];
    assert more[1..] == gaps[1..];
    if words != [] { InFront(c, gaps[0], words[0] + Woven(words[1..], gaps[1..])); }
  }

  lemma InFront(c: char, a: string, b: string)
    ensures ([c] + a) + b == [c] + (a + b)
  {
  }

  lemma HasWordsIff(text: string, words: seq<string>)
    ensures HasWords(text, words) <==> words == Tokens(text)
  {
    if HasWords(text, words) {
      var gaps :| |gaps| == |words| + 1 && IsGaps(gaps) && text == Woven(words, gaps);
      TokensOfWoven(words, gaps);
    }
    var gaps := WeaveTokens(text);
  }

  /** The whitespace checker accepts exactly the texts of the same words in the same order, however they are set
      apart. */
  lemma SameWordsIff(expected: string, actual: string)
    ensures WhitespaceCheck(expected, actual)
       <==> exists words :: HasWords(expected, words) && HasWords(actual, words)
  {
    forall words ensures HasWords(expected, words) <==> words == Tokens(expected) { HasWordsIff(expected, words); }
    forall words ensures HasWords(actual, words) <==> words == Tokens(actual) { HasWordsIff(actual, words); }
    hide HasWords, Tokens;
    if WhitespaceCheck(expected, actual) {
      var words := Tokens(expected);
      assert HasWords(expected, words) && HasWords(actual, words);
    }
  }

  /** The exact checker accepts exactly the text itself, character by character. */
  lemma SameTextIff(expected: string, actual: string)
    ensures ExactCheck(expected, actual)
       <==> |expected| == |actual| && forall i :: 0 <= i < |expected| ==> expected[i] == actual[i]
  {
  }

  // ----- what a line is -----

  /** The lines put together again. */
  function Joined(lines: seq<string>): string
    requires lines != []
  {
    if |lines| == 1 then lines[0] else lines[0] + ("\n" + Joined(lines[1..]))
  }

  /** A text has exactly one division into lines without line feeds, and that is the one used. */
  lemma {:induction false} LinesAreCut(s: string, lines: seq<string>)
    requires lines != []
    ensures (Joined(lines) == s && forall i :: 0 <= i < |lines| ==> '\n' !in lines[i]) <==> lines == Lines(s)
    decreases |s|
  {
    LinesJoin(s);
    if Joined(lines) == s && forall i :: 0 <= i < |lines| ==> '\n' !in lines[i] {
      CutOfJoined(lines);
    }
  }

  lemma {:induction false} LinesJoin(s: string)
    ensures Joined(Lines(s)) == s && forall i :: 0 <= i < |Lines(s)| ==> '\n' !in Lines(s)[i]
  {
    if s != "" {
      var rest := Lines(s[1..]);
      LinesJoin(s[1..]);
      if s[0] == '\n' {
        assert ([""] + rest)[1..] == rest;
        assert "" + ("\n" + s[1..]) == s;
      } else {
        var lines := [[s[0]] + rest[0]] + rest[1..];
        assert lines[1..] == rest[1..];
        JoinedCons(s[0], rest);
        assert [s[0]] + s[1..] == s;
      }
    }
  }

  lemma JoinedCons(c: char, lines: seq<string>)
    requires lines != []
    ensures Joined([[c] + lines[0]] + lines[1..]) == [c] + Joined(lines)
  {
    var more := [[c] + lines[0]] + lines[1..];
    assert more[1..] == lines[1..];
    if |lines| > 1 {
      InFront(c, lines[0], "\n" + Joined(lines[1..]));
    }
  }

  lemma {:induction false} CutOfJoined(lines: seq<string>)
    requires lines != [] && forall i :: 0 <= i < |lines| ==> '\n' !in lines[i]
    ensures Lines(Joined(lines)) == lines
    decreases |lines|, |lines[0]|
  {
    if lines[0] != "" {
      var shorter := [lines[0][1..]] + lines[1..];
      assert '\n' !in shorter[0] by { assert forall c :: c in shorter[0] ==> c in lines[0]; }
      assert forall i :: 0 < i < |shorter| ==> shorter[i] == lines[i];
      CutOfJoined(shorter);
      assert shorter[1..] == lines[1..] && [lines[0][0]] + shorter[0] == lines[0];
      JoinedCons(lines[0][0], shorter);
      LinesCons(lines[0][0], Joined(shorter));
      assert [lines[0]] + lines[1..] == lines;
    } else if |lines| > 1 {
      CutOfJoined(lines[1..]);
      assert Joined(lines) == "\n" + Joined(lines[1..]);
      LinesCons('\n', Joined(lines[1..]));
      assert [""] + lines[1..] == lines;
    } else {
      assert lines == [""];
    }
  }

  /** Each kind of line break is one line feed, and everything else stays. */
  lemma UniversalCases(s: string)
    ensures Universal("") == ""
    ensures Universal("\r\n" + s) == "\n" + Universal(s)
    ensures s == "" || s[0] != '\n' ==> Universal("\r" + s) == "\n" + Universal(s)
    ensures forall c: char :: c != '\r' ==> Universal([c] + s) == [c] + Universal(s)
  {
    assert ("\r\n" + s)[2..] == s && ("\r" + s)[1..] == s;
    CrOfSum("\n", ReplaceCrLf(s));
    CrOfSum("\r", ReplaceCrLf(s));
    assert ReplaceCr("\n") == "\n" && ReplaceCr("\r") == "\n" by { assert "\n"[1..] == "" && "\r"[1..] == ""; }
    forall c: char | c != '\r' ensures Universal([c] + s) == [c] + Universal(s) {
      assert ([c] + s)[1..] == s;
      CrOfSum([c], ReplaceCrLf(s));
      assert ReplaceCr([c]) == [c] by { assert [c][1..] == ""; }
    }
  }

  /** Each checker forgives at least what the one before it forgives. */
  lemma Chain(expected: string, actual: string)
    ensures ExactCheck(expected, actual) ==> SameLines(expected, actual)
    ensures SameLines(expected, actual) ==> WhitespaceCheck(expected, actual)
  {
    if SameLines(expected, actual) {
      SameLinesIff(expected, actual);
      TokensOfNormal(expected);
      TokensOfNormal(actual);
    }
  }

  // ----- what the lines checker forgives -----

  /** The normal form of a text in which every line break is a line feed. */
  function Norm(s: string): seq<string> {
    DropBlank(Stripped(Lines(s)))
  }

  /** A line in front of a normal form: a blank one only counts if something follows. */
  function Cons(line: string, norm: seq<string>): seq<string> {
    if line == "" && norm == [] then [] else [line] + norm
  }

  function Head(norm: seq<string>): string {
    if norm == [] then "" else norm[0]
  }

  function Tail(norm: seq<string>): seq<string> {
    if norm == [] then [] else norm[1..]
  }

  /** A character in front of a line without trailing white space. */
  function Front(c: char, line: string): string {
    if line == "" && IsSpace(c) then "" else [c] + line
  }

  /** What a character in front of a text does to its normal form. */
  function Step(c: char, norm: seq<string>): seq<string> {
    if c == '\n' then Cons("", norm) else Cons(Front(c, Head(norm)), Tail(norm))
  }

  lemma HeadTail(line: string, norm: seq<string>)
    ensures Head(Cons(line, norm)) == line && Tail(Cons(line, norm)) == norm
    ensures Cons(Head(norm), Tail(norm)) == norm || (norm != [] && norm[0] == "" && |norm| == 1)
  {
  }

  lemma StripCons(c: char, t: string)
    ensures RStrip([c] + t) == Front(c, RStrip(t))
  {
    assert ([c] + t)[1..] == t;
  }

  lemma StrippedCons(line: string, lines: seq<string>)
    ensures Stripped([line] + lines) == [RStrip(line)] + Stripped(lines)
  {
  }

  lemma DropCons(line: string, lines: seq<string>)
    ensures DropBlank([line] + lines) == Cons(line, DropBlank(lines))
  {
    assert ([line] + lines)[1..] == lines;
  }

  lemma LinesCons(c: char, t: string)
    ensures Lines([c] + t) == if c == '\n' then [""] + Lines(t) else [[c] + Lines(t)[0]] + Lines(t)[1..]
  {
    assert ([c] + t)[1..] == t;
  }

  lemma NormOfLine(line: string, lines: seq<string>)
    ensures DropBlank(Stripped([line] + lines)) == Cons(RStrip(line), DropBlank(Stripped(lines)))
  {
    StrippedCons(line, lines);
    DropCons(RStrip(line), Stripped(lines));
  }

  lemma NormCons(c: char, t: string)
    ensures Norm([c] + t) == Step(c, Norm(t))
  {
    var lines := Lines(t);
    LinesCons(c, t);
    assert [lines[0]] + lines[1..] == lines && RStrip("") == "";
    NormOfLine(lines[0], lines[1..]);
    NormOfLine("", lines);
    NormOfLine([c] + lines[0], lines[1..]);
    StripCons(c, lines[0]);
    HeadTail(RStrip(lines[0]), DropBlank(Stripped(lines[1..])));
    hide Lines, Stripped, DropBlank, RStrip, Cons, Head, Tail, Front;
  }

  /** The normal form of a text depends only on the normal form of what follows a prefix. */
  lemma {:induction false} Context(x: string, y: string, z: string)
    requires Norm(y) == Norm(z)
    ensures Norm(x + y) == Norm(x + z)
  {
    hide Norm;
    if x == "" {
      assert x + y == y && x + z == z;
    } else {
      Context(x[1..], y, z);
      NormCons(x[0], x[1..] + y);
      NormCons(x[0], x[1..] + z);
      FirstRest(x, y);
      FirstRest(x, z);
    }
  }

  lemma BlankHead(y: string)
    requires y == "" || y[0] == '\n'
    ensures Head(Norm(y)) == ""
    ensures Cons("", Tail(Norm(y))) == Norm(y)
  {
    if y == "" {
      NormOfLine("", []);
    } else {
      NormCons(y[0], y[1..]);
      hide Norm;
      assert [y[0]] + y[1..] == y;
    }
  }

  /** White space without line breaks in front of a line break or the end. */
  lemma {:induction false} SpaceBeforeBreak(w: string, y: string)
    requires AllSpace(w) && '\n' !in w
    requires y == "" || y[0] == '\n'
    ensures Norm(w + y) == Norm(y)
  {
    BlankHead(y);
    hide Norm;
    if w == "" {
      assert w + y == y;
    } else {
      SpaceBeforeBreak(w[1..], y);
      NormCons(w[0], w[1..] + y);
      FirstRest(w, y);
      hide Cons, Head, Tail;
    }
  }

  lemma {:induction false} SpaceIsNothing(w: string)
    requires AllSpace(w)
    ensures Norm(w) == []
  {
    if w == "" {
      BlankHead("");
      NormOfLine("", []);
    } else {
      SpaceIsNothing(w[1..]);
      NormCons(w[0], w[1..]);
      hide Norm;
      assert [w[0]] + w[1..] == w;
    }
  }

  /** The place between x and y is inside a carriage return and line feed pair. */
  predicate Splits(x: string, y: string) {
    x != "" && y != "" && x[|x| - 1] == '\r' && y[0] == '\n'
  }

  lemma {:induction false} CrLfOfSum(x: string, y: string)
    requires !Splits(x, y)
    ensures ReplaceCrLf(x + y) == ReplaceCrLf(x) + ReplaceCrLf(y)
    decreases |x|
  {
    if x == "" {
      assert x + y == y;
    } else {
      FirstRest(x, y);
      var s := x + y;
      assert s[1..] == x[1..] + y;
      if |x| > 1 && x[0] == '\r' && x[1] == '\n' {
        assert s[2..] == x[2..] + y;
        CrLfOfSum(x[2..], y);
      } else {
        CrLfOfSum(x[1..], y);
      }
    }
  }

  lemma {:induction false} CrOfSum(x: string, y: string)
    ensures ReplaceCr(x + y) == ReplaceCr(x) + ReplaceCr(y)
  {
    if x == "" {
      assert x + y == y;
    } else {
      assert (x + y)[1..] == x[1..] + y;
      CrOfSum(x[1..], y);
    }
  }

  lemma UniversalOfSum(x: string, y: string)
    requires !Splits(x, y)
    ensures Universal(x + y) == Universal(x) + Universal(y)
  {
    CrLfOfSum(x, y);
    CrOfSum(ReplaceCrLf(x), ReplaceCrLf(y));
  }

  lemma {:induction false} NoCarriageReturn(s: string)
    requires '\r' !in s
    ensures ReplaceCrLf(s) == s && ReplaceCr(s) == s && Universal(s) == s
  {
    if s != "" { NoCarriageReturn(s[1..]); }
  }

  lemma {:induction false} UniversalOfSpace(s: string)
    requires AllSpace(s)
    ensures AllSpace(Universal(s))
    decreases |s|
  {
    if s != "" {
      if |s| > 1 && s[0] == '\r' && s[1] == '\n' {
        UniversalOfSpace(s[2..]);
        CrOfSum("\n", ReplaceCrLf(s[2..]));
      } else {
        UniversalOfSpace(s[1..]);
        CrOfSum([s[0]], ReplaceCrLf(s[1..]));
      }
    }
  }

  /** `\r\n` for every line feed. */
  function Windows(s: string): string {
    if s == "" then "" else (if s[0] == '\n' then "\r\n" else [s[0]]) + Windows(s[1..])
  }

  lemma {:induction false} WindowsUndone(s: string)
    requires '\r' !in s
    ensures ReplaceCrLf(Windows(s)) == s
  {
    if s != "" {
      var rest := Windows(s[1..]);
      WindowsUndone(s[1..]);
      if s[0] == '\n' {
        assert ("\r\n" + rest)[2..] == rest;
      } else {
        assert ([s[0]] + rest)[1..] == rest;
      }
    }
  }

  /** Windows line endings make no difference. */
  lemma WindowsIsAccepted(s: string)
    requires '\r' !in s
    ensures SameLines(Windows(s), s)
  {
    WindowsUndone(s);
    NoCarriageReturn(s);
    SameLinesIff(Windows(s), s);
  }

  lemma BreakStays(y: string)
    requires y == "" || y[0] == '\n' || y[0] == '\r'
    ensures Universal(y) == "" || Universal(y)[0] == '\n'
  {
  }

  lemma Assoc(x: string, w: string, y: string)
    ensures x + w + y == x + (w + y)
  {
  }

  lemma SpaceAtLineEnd(x: string, w: string, y: string)
    requires AllSpace(w) && '\n' !in w && '\r' !in w
    requires y == "" || y[0] == '\n' || y[0] == '\r'
    requires !Splits(x, y)
    ensures SameLines(x + w + y, x + y)
  {
    UniversalOfSum(x, y);
    UniversalOfSum(x, w + y);
    UniversalOfSum(w, y);
    NoCarriageReturn(w);
    BreakStays(y);
    SpaceBeforeBreak(w, Universal(y));
    Context(Universal(x), w + Universal(y), Universal(y));
    SameLinesIff(x + w + y, x + y);
    Assoc(x, w, y);
    hide Universal, Norm, SameLines, AllSpace, Splits;
    assert Normal(x + w + y) == Norm(Universal(x + (w + y)));
  }

  lemma NormEnds(s: string)
    ensures Norm(s) != [] ==> Norm(s)[|Norm(s)| - 1] != ""
  {
    hide DropBlank, Stripped, Lines;
  }

  /** If a text is not blank, a prefix adds as many lines as it has line feeds. */
  lemma {:induction false} Longer(x: string, y: string, z: string)
    requires |Norm(y)| > |Norm(z)| > 0
    ensures |Norm(x + y)| > |Norm(x + z)| > 0
  {
    hide Norm;
    if x == "" {
      assert x + y == y && x + z == z;
    } else {
      NormEnds(x[1..] + y);
      NormEnds(x[1..] + z);
      Longer(x[1..], y, z);
      NormCons(x[0], x[1..] + y);
      NormCons(x[0], x[1..] + z);
      FirstRest(x, y);
      FirstRest(x, z);
    }
  }

  lemma {:induction false} NoTokens(s: string)
    requires Tokens(s) == []
    ensures AllSpace(s)
  {
    if s != "" {
      NoTokens(s[1..]);
      assert forall i :: 0 < i < |s| ==> s[i] == s[1..][i - 1];
    }
  }

  lemma BlankIff(s: string)
    ensures Norm(Universal(s)) == [] <==> AllSpace(s)
  {
    if AllSpace(s) {
      UniversalOfSpace(s);
      SpaceIsNothing(Universal(s));
    } else if Normal(s) == [] {
      TokensOfNormal(s);
      NoTokens(s);
    }
  }

  /** White space inside a `\r\n` makes a line of its own. */
  lemma SpaceInsidePair(x: string, w: string, y: string)
    requires AllSpace(w) && '\n' !in w && '\r' !in w && w != ""
    requires Splits(x, y)
    ensures SameLines(x + w + y, x + y) <==> AllSpace(y)
  {
    var (x0, z, v) := (x[..|x| - 1], y[1..], Universal(y));
    PairParts(x, w, y);
    SpaceBeforeBreak(w, v);
    NormCons('\n', w + v);
    BlankIff(y);
    SameLinesIff(x + w + y, x + y);
    hide Universal, Lines, Stripped, DropBlank, SameLines, AllSpace;
    assert Normal(x + w + y) == Norm(Universal(x0) + (['\n'] + (w + v)));
    assert Normal(x + y) == Norm(Universal(x0) + v);
    if Norm(v) == [] {
      Context(Universal(x0), ['\n'] + (w + v), v);
    } else {
      Longer(Universal(x0), ['\n'] + (w + v), v);
    }
  }

  lemma PairParts(x: string, w: string, y: string)
    requires '\n' !in w && '\r' !in w && w != "" && Splits(x, y)
    ensures var (x0, v) := (x[..|x| - 1], Universal(y));
      && v != "" && v[0] == '\n'
      && Universal(x + y) == Universal(x0) + v
      && Universal(x + w + y) == Universal(x0) + (['\n'] + (w + v))
  {
    var x0, z := x[..|x| - 1], y[1..];
    BreakStays(y);
    NoCarriageReturn(w);
    UniversalOfSum(x0, "\r" + y);
    UniversalOfSum(x0, "\r");
    UniversalOfSum(x, w + y);
    UniversalOfSum(w, y);
    PairIsOne(y);
    hide Universal;
    LastOff(x, y);
    Assoc(x, w, y);
    Assoc(Universal(x0), ['\n'], w + Universal(y));
  }

  lemma PairIsOne(y: string)
    requires y != "" && y[0] == '\n'
    ensures Universal("\r" + y) == Universal(y) && Universal("\r") == "\n"
  {
    assert ("\r" + y)[2..] == y[1..];
    assert "\r"[1..] == "";
  }

  /** White space without line breaks, put in front of a line break or the end of the text, makes no difference exactly
      if it does not tear a `\r\n` apart or only blank lines follow. */
  lemma TrailingSpaceIsAccepted(x: string, w: string, y: string)
    requires AllSpace(w) && '\n' !in w && '\r' !in w
    requires y == "" || y[0] == '\n' || y[0] == '\r'
    ensures SameLines(x + w + y, x + y) <==> (w == "" || !Splits(x, y) || AllSpace(y))
  {
    if !Splits(x, y) {
      SpaceAtLineEnd(x, w, y);
    } else if w == "" {
      assert x + w + y == x + y;
    } else {
      SpaceInsidePair(x, w, y);
    }
  }

  /** A blank put between the two characters of a line break makes a line of its own. */
  lemma TornPairIsRejected()
    ensures !SameLines("a\r" + " " + "\nb", "a\r" + "\nb")
  {
    assert !IsSpace("\nb"[1]);
    TrailingSpaceIsAccepted("a\r", " ", "\nb");
  }

  lemma BlankAfter(x: string, w: string)
    requires AllSpace(w) && !Splits(x, w)
    ensures Normal(x + w) == Normal(x)
  {
    UniversalOfSum(x, w);
    UniversalOfSpace(w);
    SpaceIsNothing(Universal(w));
    SpaceIsNothing("");
    Context(Universal(x), Universal(w), "");
    hide Universal, Lines, Stripped, DropBlank;
    assert Universal(x) + "" == Universal(x);
  }

  lemma LastOff(x: string, w: string)
    requires x != ""
    ensures x[..|x| - 1] + [x[|x| - 1]] == x && x[..|x| - 1] + ([x[|x| - 1]] + w) == x + w
  {
  }

  /** White space at the end of the text, blank lines included, makes no difference. */
  lemma TrailingBlankIsAccepted(x: string, w: string)
    requires AllSpace(w)
    ensures SameLines(x + w, x)
  {
    if Splits(x, w) {
      var x0 := x[..|x| - 1];
      BlankAfter(x0, "\r" + w);
      BlankAfter(x0, "\r");
      LastOff(x, w);
    } else {
      BlankAfter(x, w);
    }
    SameLinesIff(x + w, x);
    hide Normal, SameLines;
  }
}
