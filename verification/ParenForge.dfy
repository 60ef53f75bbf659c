/** "Paren Forge": all well-formed chains of n pairs of brackets, by backtracking with two counters and a shared
    list. */
module ParenForge {

  // ----- what the statement asks for -----

  /** The grammar of well-formed chains: nothing, or a chain inside a pair of brackets followed by a chain. */
  datatype Chain = Empty | Pair(inner: Chain, rest: Chain)

  function Text(c: Chain): string {
    match c
    case Empty => ""
    case Pair(inner, rest) => "(" + (Text(inner) + (")" + Text(rest)))
  }

  /** Every `(` is closed later by a `)` of its own. */
  ghost predicate WellFormed(s: string) {
    exists c :: Text(c) == s
  }

  /** Alphabetical order, `(` before `)`. */
  predicate Before(s: string, t: string) {
    t != "" && (s == "" || (s[0] == '(' && t[0] == ')') || (s[0] == t[0] && Before(s[1..], t[1..])))
  }

  /** All of them, in order, each once. */
  ghost predicate IsAnswer(n: nat, out: seq<string>) {
    && (forall s :: s in out <==> WellFormed(s) && |s| == 2 * n)
    && (forall i, j :: 0 <= i < j < |out| ==> Before(out[i], out[j]))
  }

  // ----- closing what is open -----

  /** s closes d open brackets, and everything it opens itself. */
  predicate Closes(s: string, d: nat) {
    if s == "" then d == 0
    else if s[0] == '(' then Closes(s[1..], d + 1)
    else s[0] == ')' && d > 0 && Closes(s[1..], d - 1)
  }

  /** A chain changes nothing in front of a text. */
  lemma {:induction false} ChainCloses(c: Chain, s: string, d: nat)
    ensures Closes(Text(c) + s, d) <==> Closes(s, d)
  {
    match c
    case Empty => assert "" + s == s;
    case Pair(inner, rest) =>
      var tail := ")" + (Text(rest) + s);
      assert (Text(c) + s)[1..] == Text(inner) + tail && (Text(c) + s)[0] == '(';
      ChainCloses(inner, tail, d + 1);
      assert tail[1..] == Text(rest) + s;
      ChainCloses(rest, s, d);
  }

  /** A text that closes d + 1 brackets is a chain, a closing bracket, and a text that closes d. */
  lemma {:induction false} CutChain(s: string, d: nat) returns (c: Chain, t: string)
    requires Closes(s, d + 1)
    ensures s == Text(c) + (")" + t) && Closes(t, d)
    decreases |s|
  {
    if s[0] == ')' {
      c, t := Empty, s[1..];
    } else {
      var inner, u := CutChain(s[1..], d + 1);
      var rest, v := CutChain(u, d);
      c, t := Pair(inner, rest), v;
      assert s == "(" + (Text(inner) + (")" + (Text(rest) + (")" + t))));
    }
  }

  /** Counting brackets recognises exactly the well-formed chains. */
  lemma WellFormedIff(s: string)
    ensures WellFormed(s) <==> Closes(s, 0)
  {
    if WellFormed(s) {
      var c :| Text(c) == s;
      ChainCloses(c, "", 0);
      assert s + "" == s;
    }
    if Closes(s, 0) {
      ClosedIsChain(s);
    }
  }

  lemma {:induction false} ClosedIsChain(s: string)
    requires Closes(s, 0)
    ensures WellFormed(s)
    decreases |s|
  {
    if s == "" {
      assert Text(Empty) == s;
    } else {
      var inner, t := CutChain(s[1..], 0);
      ClosedIsChain(t);
      var rest :| Text(rest) == t;
      assert Text(Pair(inner, rest)) == s;
    }
  }

  // ----- the backtracking -----

  /** What `build` appends, without what has been built so far. */
  function Endings(n: nat, begun: nat, closed: nat): (r: seq<string>)
    requires closed <= begun <= n
    decreases 2 * n - begun - closed, 1
  {
    if begun + closed == 2 * n then [""] else OpenNext(n, begun, closed) + CloseNext(n, begun, closed)
  }

  function OpenNext(n: nat, begun: nat, closed: nat): seq<string>
    requires closed <= begun <= n
    decreases 2 * n - begun - closed, 0
  {
    if begun < n then After('(', Endings(n, begun + 1, closed)) else []
  }

  function CloseNext(n: nat, begun: nat, closed: nat): seq<string>
    requires closed <= begun <= n
    decreases 2 * n - begun - closed, 0
  {
    if closed < begun then After(')', Endings(n, begun, closed + 1)) else []
  }

  function After(c: char, endings: seq<string>): (r: seq<string>)
    ensures |r| == |endings| && forall i :: 0 <= i < |r| ==> r[i] == [c] + endings[i]
  {
    seq(|endings|, i requires 0 <= i < |endings| => [c] + endings[i])
  }

  function Prefixed(current: string, endings: seq<string>): (r: seq<string>)
    ensures |r| == |endings| && forall i :: 0 <= i < |r| ==> r[i] == current + endings[i]
  {
    seq(|endings|, i requires 0 <= i < |endings| => current + endings[i])
  }

  class Forge {
    const n: nat
    var out: seq<string>

    constructor (n: nat)
      ensures this.n == n && out == []
    {
      this.n := n;
      out := [];
    }

    method Build(current: string, begun: nat, closed: nat)
      requires closed <= begun <= n && |current| == begun + closed
      modifies this
      ensures out == old(out) + Prefixed(current, Endings(n, begun, closed))
      decreases 2 * n - begun - closed
    {
      if |current| == 2 * n {
        out := out + [current];
        PrefixedNothing(current);
        return;
      }
      BuildBoth(old(out), current, OpenNext(n, begun, closed), CloseNext(n, begun, closed));
      if begun < n {
        Build(current + "(", begun + 1, closed);
        Longer(current, '(', Endings(n, begun + 1, closed));
      }
      hide After, Prefixed;
      assert out == old(out) + Prefixed(current, OpenNext(n, begun, closed));
      if closed < begun {
        Build(current + ")", begun, closed + 1);
        Longer(current, ')', Endings(n, begun, closed + 1));
      }
    }
  }

  lemma PrefixedNothing(current: string)
    ensures Prefixed(current, [""]) == [current] && Prefixed(current, []) == []
  {
    assert current + "" == current;
  }

  lemma BuildBoth(out: seq<string>, current: string, first: seq<string>, second: seq<string>)
    ensures out + Prefixed(current, first + second) == (out + Prefixed(current, first)) + Prefixed(current, second)
    ensures Prefixed(current, []) == [] && forall s: seq<string> :: s + [] == s
  {
    assert Prefixed(current, first + second) == Prefixed(current, first) + Prefixed(current, second);
  }

  lemma Longer(current: string, c: char, endings: seq<string>)
    ensures Prefixed(current + [c], endings) == Prefixed(current, After(c, endings))
  {
    forall i | 0 <= i < |endings| ensures current + [c] + endings[i] == current + ([c] + endings[i]) {}
  }

  // ----- the endings are the texts that close what is open -----

  lemma {:induction false} NotShorter(s: string, d: nat)
    requires Closes(s, d)
    ensures |s| >= d
  {
    if s != "" { NotShorter(s[1..], if s[0] == '(' then d + 1 else d - 1); }
  }

  lemma InAfter(c: char, endings: seq<string>, s: string)
    ensures s in After(c, endings) <==> s != "" && s[0] == c && s[1..] in endings
  {
    if s in After(c, endings) {
      var i :| 0 <= i < |endings| && After(c, endings)[i] == s;
      assert s[1..] == endings[i];
    }
    if s != "" && s[0] == c && s[1..] in endings {
      var i :| 0 <= i < |endings| && endings[i] == s[1..];
      assert After(c, endings)[i] == [c] + s[1..] == s;
    }
  }

  lemma InEndings(n: nat, begun: nat, closed: nat, s: string)
    requires closed <= begun <= n && begun + closed < 2 * n
    ensures s in Endings(n, begun, closed) <==>
      s != "" && if s[0] == '(' then begun < n && s[1..] in Endings(n, begun + 1, closed)
                 else s[0] == ')' && closed < begun && s[1..] in Endings(n, begun, closed + 1)
  {
    if begun < n { InAfter('(', Endings(n, begun + 1, closed), s); }
    if closed < begun { InAfter(')', Endings(n, begun, closed + 1), s); }
    hide After;
    assert s in Endings(n, begun, closed) <==> s in OpenNext(n, begun, closed) || s in CloseNext(n, begun, closed);
  }

  lemma {:induction false} EndingsAre(n: nat, begun: nat, closed: nat, s: string)
    requires closed <= begun <= n
    ensures s in Endings(n, begun, closed) <==> Closes(s, begun - closed) && |s| == 2 * n - begun - closed
    decreases |s|
  {
    if begun + closed < 2 * n {
      InEndings(n, begun, closed, s);
      hide Endings;
      if s == "" {
      } else if s[0] == '(' {
        if begun < n {
          EndingsAre(n, begun + 1, closed, s[1..]);
        } else if Closes(s, begun - closed) {
          NotShorter(s[1..], begun - closed + 1);
        }
      } else if closed < begun {
        EndingsAre(n, begun, closed + 1, s[1..]);
      }
    }
  }

  ghost predicate Sorted(texts: seq<string>) {
    forall i, j :: 0 <= i < j < |texts| ==> Before(texts[i], texts[j])
  }

  lemma AfterSorted(c: char, endings: seq<string>)
    requires Sorted(endings)
    ensures Sorted(After(c, endings))
  {
    forall i, j | 0 <= i < j < |endings| ensures Before(After(c, endings)[i], After(c, endings)[j]) {
      assert After(c, endings)[i][1..] == endings[i] && After(c, endings)[j][1..] == endings[j];
    }
  }

  lemma {:induction false} EndingsSorted(n: nat, begun: nat, closed: nat)
    requires closed <= begun <= n
    ensures Sorted(Endings(n, begun, closed))
    decreases 2 * n - begun - closed
  {
    if begun + closed < 2 * n {
      if begun < n {
        EndingsSorted(n, begun + 1, closed);
        AfterSorted('(', Endings(n, begun + 1, closed));
      }
      if closed < begun {
        EndingsSorted(n, begun, closed + 1);
        AfterSorted(')', Endings(n, begun, closed + 1));
      }
      BothSorted(OpenNext(n, begun, closed), CloseNext(n, begun, closed));
      hide Sorted;
    }
  }

  lemma BothSorted(first: seq<string>, second: seq<string>)
    requires Sorted(first) && Sorted(second)
    requires forall i :: 0 <= i < |first| ==> first[i] != "" && first[i][0] == '('
    requires forall i :: 0 <= i < |second| ==> second[i] != "" && second[i][0] == ')'
    ensures Sorted(first + second)
  {
  }

  lemma EndingsAnswer(n: nat)
    ensures IsAnswer(n, Endings(n, 0, 0)) && Prefixed("", Endings(n, 0, 0)) == Endings(n, 0, 0)
  {
    var out := Endings(n, 0, 0);
    EndingsSorted(n, 0, 0);
    forall s ensures s in out <==> WellFormed(s) && |s| == 2 * n {
      EndingsAre(n, 0, 0, s);
      WellFormedIff(s);
    }
    assert forall i :: 0 <= i < |out| ==> "" + out[i] == out[i];
  }

  method Solve(n: nat) returns (out: seq<string>)
    ensures IsAnswer(n, out)
  {
    var forge := new Forge(n);
    forge.Build("", 0, 0);
    EndingsAnswer(n);
    assert [] + Endings(n, 0, 0) == Endings(n, 0, 0);
    out := forge.out;
  }
}
