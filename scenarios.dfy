/** A worked training run: sentinels '^' and '$', order 2, no nesting, the strings "ab"
    and "ac"; and a short string under `nested_seq`. */
module Scenarios {
  import opened Basics
  import opened Dicts
  import opened Chain
  import opened Counts

  const Cfg := Config('^', '$', 2, false)

  /** The three increments of a two-character string: the start context on its first
      character, the first character on the second, the whole string on the end sentinel. */
  lemma TwoCharSteps(s: string)
    requires |s| == 2 && '^' !in s && '$' !in s
    ensures Increments(Cfg, s) == [("^", s[0]), ([s[0]], s[1]), (s, '$')]
  {
    PlainIncrements(Cfg, s);
    assert Window(s, 1, 2) == [s[0]] && Window(s, 2, 2) == s;
  }

  /** How often each of three increments is `q`. */
  lemma OccurrencesThree(x: Step, y: Step, z: Step, q: Step)
    ensures Occurrences([x, y, z], q) ==
      (if x == q then 1 else 0) + (if y == q then 1 else 0) + (if z == q then 1 else 0)
  {
    OccurrencesSnoc([], x, q);
    assert [] + [x] == [x];
    OccurrencesSnoc([x], y, q);
    assert [x] + [y] == [x, y];
    OccurrencesSnoc([x, y], z, q);
    assert [x, y] + [z] == [x, y, z];
  }

  /** The six increments of "ab" and "ac", in order. */
  function SixSteps(): seq<Step>
  {
    [("^", 'a'), ("a", 'b'), ("ab", '$')] + [("^", 'a'), ("a", 'c'), ("ac", '$')]
  }

  /** Training on "ab" and "ac" performs the increments of "ab", then those of "ac". */
  lemma TwoStringsSteps()
    ensures IngestedAll(Cfg, Empty(), ["ab", "ac"]) == (ApplyAll(Empty(), SixSteps()), Pass)
  {
    var ss: seq<string> := ["ab", "ac"];
    assert ss[..1] == ["ab"];
    assert ss[..1][..0] == [];
    TwoCharSteps("ab");
    TwoCharSteps("ac");
    ApplyAllAppend(Empty(), Increments(Cfg, "ab"), Increments(Cfg, "ac"));
  }

  /** After "ab" and "ac", every count is the number of times its pair occurs among the
      six increments of the two strings. */
  lemma TwoStringsCount(k: string, c: char)
    ensures var (t, o) := IngestedAll(Cfg, Empty(), ["ab", "ac"]);
      o == Pass &&
      CountOf(t, k, c) ==
        Occurrences([("^", 'a'), ("a", 'b'), ("ab", '$')], (k, c)) +
        Occurrences([("^", 'a'), ("a", 'c'), ("ac", '$')], (k, c))
  {
    TwoStringsSteps();
    var a, b := [("^", 'a'), ("a", 'b'), ("ab", '$')], [("^", 'a'), ("a", 'c'), ("ac", '$')];
    ApplyAllCount(Empty(), a + b, k, c);
    OccurrencesAppend(a, b, (k, c));
  }

  /** Training on "ab" and "ac" counts '^'→a twice, a→b and a→c once each, and the end
      sentinel once after each of "ab" and "ac"; no other pair is counted. */
  lemma TwoStrings(k: string, c: char)
    ensures var (t, o) := IngestedAll(Cfg, Empty(), ["ab", "ac"]);
      o == Pass &&
      CountOf(t, k, c) ==
        if (k, c) == ("^", 'a') then 2
        else if (k, c) in {("a", 'b'), ("a", 'c'), ("ab", '$'), ("ac", '$')} then 1
        else 0
  {
    TwoStringsCount(k, c);
    OccurrencesThree(("^", 'a'), ("a", 'b'), ("ab", '$'), (k, c));
    OccurrencesThree(("^", 'a'), ("a", 'c'), ("ac", '$'), (k, c));
  }

  /** The characters three increments count in the context k. */
  lemma CharsOfThree(x: Step, y: Step, z: Step, k: string)
    ensures CharsOf([x, y, z], k) ==
      (if x.0 == k then [x.1] else []) + (if y.0 == k then [y.1] else []) + (if z.0 == k then [z.1] else [])
  {
    assert [x][..0] == [] && [x, y][..1] == [x] && [x, y, z][..2] == [x, y];
    assert CharsOf([x], k) == (if x.0 == k then [x.1] else []);
    assert CharsOf([x, y], k) == CharsOf([x], k) + (if y.0 == k then [y.1] else []);
    assert CharsOf([x, y, z], k) == CharsOf([x, y], k) + (if z.0 == k then [z.1] else []);
  }

  /** The characters counted in the context k by the two strings, in order. */
  lemma TwoStringsChars(k: string)
    ensures CharsOf(SixSteps(), k) ==
      (if k == "^" then ['a', 'a'] else if k == "a" then ['b', 'c'] else if k == "ab" || k == "ac" then ['$'] else [])
  {
    var a, b := [("^", 'a'), ("a", 'b'), ("ab", '$')], [("^", 'a'), ("a", 'c'), ("ac", '$')];
    CharsOfAppend(a, b, k);
    CharsOfThree(("^", 'a'), ("a", 'b'), ("ab", '$'), k);
    CharsOfThree(("^", 'a'), ("a", 'c'), ("ac", '$'), k);
  }

  /** Replaying the increments of "ab" and "ac" lists the characters each context saw,
      first occurrences first. */
  lemma SixStepsOrder(k: string)
    ensures KeysOf(ApplyAll(Empty(), SixSteps()), k) == FirstOccurrences(CharsOf(SixSteps(), k))
  {
    ApplyAllOrder(Empty(), SixSteps(), k);
    assert KeysOf(Empty(), k) == [];
    assert [] + CharsOf(SixSteps(), k) == CharsOf(SixSteps(), k);
  }

  /** After "ab" and "ac", the state "a" lists b then c. */
  lemma TwoStringsOrderA()
    ensures KeysOf(IngestedAll(Cfg, Empty(), ["ab", "ac"]).0, "a") == ['b', 'c']
  {
    assert Distinct(['b', 'c']);
    FirstOccurrencesDistinct(['b', 'c']);
    TwoStringsSteps();
    TwoStringsChars("a");
    SixStepsOrder("a");
  }

  /** After "ab" and "ac", the start state lists a once. */
  lemma TwoStringsOrderStart()
    ensures KeysOf(IngestedAll(Cfg, Empty(), ["ab", "ac"]).0, "^") == ['a']
  {
    assert ['a', 'a'][..1] == ['a'] && ['a'][..0] == [];
    assert FirstOccurrences(['a']) == ['a'];
    TwoStringsSteps();
    TwoStringsChars("^");
    SixStepsOrder("^");
  }

  /** Training on "ab" and "ac" then compiling: the state "a" goes to b or c with
      probability 1/2 each, in that order, and the start state goes to a with probability 1. */
  lemma TwoStringsCompiled()
    ensures var t := IngestedAll(Cfg, Empty(), ["ab", "ac"]).0;
      TableValid(t) && "a" in t.entries && "^" in t.entries && CompileTable(t).Ok? &&
      CompileTable(t).value.entries["a"] == MarkovChainState("a", ['b', 'c'], [0.5, 0.5]) &&
      CompileTable(t).value.entries["^"] == MarkovChainState("^", ['a'], [1.0])
  {
    var ss: seq<string> := ["ab", "ac"];
    TrainedCompiles(Cfg, Empty(), ss);
    var t := IngestedAll(Cfg, Empty(), ss).0;
    TwoStringsOrderA();
    TwoStringsOrderStart();
    TwoStrings("a", 'b');
    TwoStrings("a", 'c');
    TwoStrings("^", 'a');
    assert "a" in t.entries && "^" in t.entries;
    CompiledHalves(t.entries["a"]);
    CompiledCertain(t.entries["^"], 2);
  }

  /** A state that saw b and c once each compiles to 1/2 and 1/2. */
  lemma CompiledHalves(d: Counter)
    requires d.Valid() && d.keys == ['b', 'c']
    requires 'b' in d.entries && d.entries['b'] == 1 && 'c' in d.entries && d.entries['c'] == 1
    ensures CompileState("a", d) == Ok(MarkovChainState("a", ['b', 'c'], [0.5, 0.5]))
  {
    assert CountsInOrder(d) == [1, 1];
    assert [1, 1][1..] == [1] && [1][1..] == [];
    assert Total(d) == 2;
    var r := CompileState("a", d).value;
    assert r.probs[0] == 0.5 && r.probs[1] == 0.5;
    assert r.probs == [0.5, 0.5];
  }

  /** A state that saw only a compiles to a with probability 1, whatever its count. */
  lemma CompiledCertain(d: Counter, n: int)
    requires d.Valid() && d.keys == ['a'] && 'a' in d.entries && d.entries['a'] == n && n > 0
    ensures CompileState("^", d) == Ok(MarkovChainState("^", ['a'], [1.0]))
  {
    assert CountsInOrder(d) == [n];
    assert [n][1..] == [];
    assert SumInts([n]) == n + SumInts([]);
    assert Total(d) == n;
    DivSelf(n as real);
    var r := CompileState("^", d).value;
    assert r.probs[0] == 1.0;
    assert r.probs == [1.0];
  }

  const Nested := Config('^', '$', 3, true)

  /** With `nested_seq` and order 3, "ab" is shorter than the order: its last context "ab"
      gets two end counts, one of its own and one from `state[-2:]`, and "b" gets one. */
  lemma NestedShort()
    ensures CountOf(Ingested(Nested, Empty(), "ab"), "ab", '$') == 2
    ensures CountOf(Ingested(Nested, Empty(), "ab"), "b", '$') == 1
  {
    NestedEndCounts(Nested, "ab");
    assert Window("ab", 2, 3) == "ab";
    assert Tail("ab", 1) == "b";
    ApplyAllCount(Empty(), Increments(Nested, "ab"), "ab", '$');
    ApplyAllCount(Empty(), Increments(Nested, "ab"), "b", '$');
  }
}
