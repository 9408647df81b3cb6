/** The counts a `MarkovChainBuilder` accumulates, as values: what one call of
    `increment_transision` does, which increments `process_string` performs for a
    string, and how `compile` turns counts into probabilities. The builder's classes
    are proved against these functions. */
module Counts {
  import opened Basics
  import opened Dicts
  import opened Chain

  /** One state's `transitions`: next character to count, in first-seen order. */
  type Counter = Dict<char, int>

  /** The builder's `states`, each state abstracted to its `transitions`. */
  type Table = Dict<string, Counter>

  /** One `get_state(key).increment_transision(c)`. */
  type Step = (string, char)

  /** The builder's settings: sentinels, `seq_len` and `nested_seq`. */
  datatype Config = Config(start: char, end: char, seqLen: nat, nested: bool)

  ghost predicate TableValid(t: Table)
  {
    t.Valid() && forall k :: k in t.entries ==> t.entries[k].Valid()
  }

  // ---------------------------------------------------------------- increments

  /** `increment_transision(c)`: a new character starts at 1, a known one goes up by 1. */
  function Incremented(d: Counter, c: char): (r: Counter)
    ensures c in r.entries && r.entries[c] == (if c in d.entries then d.entries[c] + 1 else 1)
  {
    d.Put(c, if c in d.entries then d.entries[c] + 1 else 1)
  }

  /** Incrementing keeps a counter well formed and leaves every other character's count alone. */
  lemma IncrementedOthers(d: Counter, c: char)
    ensures d.Valid() ==> Incremented(d, c).Valid()
    ensures forall x :: x in Incremented(d, c).entries && x != c ==> x in d.entries && Incremented(d, c).entries[x] == d.entries[x]
    ensures forall x :: x in d.entries ==> x in Incremented(d, c).entries
  {
    if d.Valid() {
      d.PutValid(c, if c in d.entries then d.entries[c] + 1 else 1);
    }
  }

  /** The count of `c` in the state `k`, 0 when either is absent. */
  function CountOf(t: Table, k: string, c: char): int
  {
    if k in t.entries && c in t.entries[k].entries then t.entries[k].entries[c] else 0
  }

  /** The state `k` has an entry for `c`. */
  predicate Has(t: Table, k: string, c: char)
  {
    k in t.entries && c in t.entries[k].entries
  }

  /** `get_state(k)`: the state is created empty when it is missing. */
  function Touch(t: Table, k: string): (r: Table)
    ensures k in r.entries
    ensures k !in t.entries ==> r.entries[k] == Empty()
    ensures k in t.entries ==> r == t
  {
    if k in t.entries then t else t.Put(k, Empty())
  }

  /** `get_state` adds at most its own context and keeps the table well formed. */
  lemma TouchOthers(t: Table, k: string)
    ensures TableValid(t) ==> TableValid(Touch(t, k))
    ensures Touch(t, k).entries.Keys == t.entries.Keys + {k}
    ensures forall k' :: k' in t.entries ==> Touch(t, k).entries[k'] == t.entries[k']
  {
    if k !in t.entries && TableValid(t) {
      t.PutValid(k, Empty());
    }
  }

  /** `get_state(x.0).increment_transision(x.1)`. */
  function Inc(t: Table, x: Step): Table
  {
    t.Put(x.0, Incremented(if x.0 in t.entries then t.entries[x.0] else Empty(), x.1))
  }

  /** An increment keeps the table well formed. */
  lemma IncValid(t: Table, x: Step)
    requires TableValid(t)
    ensures TableValid(Inc(t, x))
  {
    var d := if x.0 in t.entries then t.entries[x.0] else Empty();
    IncrementedOthers(d, x.1);
    t.PutValid(x.0, Incremented(d, x.1));
  }

  /** One increment adds 1 to its own count, creating it when absent, and changes no other. */
  lemma IncEffect(t: Table, x: Step, k: string, c: char)
    ensures CountOf(Inc(t, x), k, c) == CountOf(t, k, c) + (if (k, c) == x then 1 else 0)
    ensures Has(Inc(t, x), k, c) <==> Has(t, k, c) || (k, c) == x
  {
  }

  /** `get_state` before an increment changes nothing the increment would not. */
  lemma IncTouched(t: Table, x: Step)
    ensures Inc(Touch(t, x.0), x) == Inc(t, x)
  {
  }

  /** The increments `steps`, performed in order. */
  function ApplyAll(t: Table, steps: seq<Step>): Table
    decreases |steps|
  {
    if steps == [] then t else Inc(ApplyAll(t, steps[..|steps| - 1]), steps[|steps| - 1])
  }

  lemma ApplyAllSnoc(t: Table, steps: seq<Step>, x: Step)
    ensures ApplyAll(t, steps + [x]) == Inc(ApplyAll(t, steps), x)
  {
    assert (steps + [x])[..|steps|] == steps;
  }

  lemma {:induction false} ApplyAllAppend(t: Table, a: seq<Step>, b: seq<Step>)
    ensures ApplyAll(t, a + b) == ApplyAll(ApplyAll(t, a), b)
    decreases |b|
  {
    if b == [] {
      assert a + b == a;
    } else {
      var b' := b[..|b| - 1];
      var x := b[|b| - 1];
      assert a + b == (a + b') + [x];
      assert b == b' + [x];
      ApplyAllSnoc(t, a + b', x);
      ApplyAllAppend(t, a, b');
      ApplyAllSnoc(ApplyAll(t, a), b', x);
    }
  }

  lemma {:induction false} ApplyAllValid(t: Table, steps: seq<Step>)
    requires TableValid(t)
    ensures TableValid(ApplyAll(t, steps))
    decreases |steps|
  {
    if steps != [] {
      ApplyAllValid(t, steps[..|steps| - 1]);
      IncValid(ApplyAll(t, steps[..|steps| - 1]), steps[|steps| - 1]);
    }
  }

  /** How many of the increments `steps` are `x`. */
  function Occurrences(steps: seq<Step>, x: Step): nat
    decreases |steps|
  {
    if steps == [] then 0
    else Occurrences(steps[..|steps| - 1], x) + (if steps[|steps| - 1] == x then 1 else 0)
  }

  lemma OccurrencesSnoc(steps: seq<Step>, y: Step, x: Step)
    ensures Occurrences(steps + [y], x) == Occurrences(steps, x) + (if y == x then 1 else 0)
  {
    assert (steps + [y])[..|steps|] == steps;
  }

  lemma {:induction false} OccurrencesAppend(a: seq<Step>, b: seq<Step>, x: Step)
    ensures Occurrences(a + b, x) == Occurrences(a, x) + Occurrences(b, x)
    decreases |b|
  {
    if b == [] {
      assert a + b == a;
    } else {
      var b', y := b[..|b| - 1], b[|b| - 1];
      assert a + b == (a + b') + [y];
      assert b == b' + [y];
      OccurrencesAppend(a, b', x);
      OccurrencesSnoc(a + b', y, x);
      OccurrencesSnoc(b', y, x);
    }
  }

  /** The occurrences of x are its multiplicity in the multiset of the increments. */
  lemma {:induction false} OccurrencesMultiset(steps: seq<Step>, x: Step)
    ensures Occurrences(steps, x) == multiset(steps)[x]
    decreases |steps|
  {
    if steps != [] {
      var init, y := steps[..|steps| - 1], steps[|steps| - 1];
      assert steps == init + [y];
      OccurrencesMultiset(init, x);
      assert multiset(steps) == multiset(init) + multiset{y};
    }
  }

  /** An increment that is not among `steps` occurs 0 times. */
  lemma OccurrencesAbsent(steps: seq<Step>, x: Step)
    requires x !in steps
    ensures Occurrences(steps, x) == 0
  {
    OccurrencesMultiset(steps, x);
  }

  /** Each count goes up by the number of times its (context, character) pair is
      incremented, and by nothing else; a count absent before counts as 0. */
  lemma {:induction false} ApplyAllCount(t: Table, steps: seq<Step>, k: string, c: char)
    ensures CountOf(ApplyAll(t, steps), k, c) == CountOf(t, k, c) + Occurrences(steps, (k, c))
    decreases |steps|
  {
    if steps != [] {
      var init := steps[..|steps| - 1];
      ApplyAllCount(t, init, k, c);
      IncEffect(ApplyAll(t, init), steps[|steps| - 1], k, c);
    }
  }

  /** Some increment is on the context k. */
  ghost predicate Mentions(steps: seq<Step>, k: string)
  {
    exists i :: 0 <= i < |steps| && steps[i].0 == k
  }

  lemma MentionsSnoc(steps: seq<Step>, x: Step, k: string)
    ensures Mentions(steps + [x], k) <==> Mentions(steps, k) || x.0 == k
  {
    var s' := steps + [x];
    if Mentions(steps, k) {
      var i :| 0 <= i < |steps| && steps[i].0 == k;
      assert s'[i] == steps[i];
    }
    if x.0 == k {
      assert s'[|steps|] == x;
    }
    if Mentions(s', k) && x.0 != k {
      var i :| 0 <= i < |s'| && s'[i].0 == k;
      assert steps[i] == s'[i];
    }
  }

  /** A context is present afterwards exactly when it was before or was incremented. */
  lemma {:induction false} ApplyAllKey(t: Table, steps: seq<Step>, k: string)
    ensures k in ApplyAll(t, steps).entries <==> k in t.entries || Mentions(steps, k)
    decreases |steps|
  {
    if steps != [] {
      var init := steps[..|steps| - 1];
      var x := steps[|steps| - 1];
      assert steps == init + [x];
      ApplyAllKey(t, init, k);
      MentionsSnoc(init, x, k);
    }
  }

  /** A context has an entry for a character afterwards exactly when it had one before
      or was incremented on it. */
  lemma {:induction false} ApplyAllHas(t: Table, steps: seq<Step>, k: string, c: char)
    ensures Has(ApplyAll(t, steps), k, c) <==> Has(t, k, c) || (k, c) in steps
    decreases |steps|
  {
    if steps != [] {
      var init := steps[..|steps| - 1];
      var x := steps[|steps| - 1];
      assert steps == init + [x];
      ApplyAllHas(t, init, k, c);
      IncEffect(ApplyAll(t, init), x, k, c);
    }
  }

  /** The characters incremented in the context k, in order. */
  function CharsOf(steps: seq<Step>, k: string): seq<char>
    decreases |steps|
  {
    if steps == [] then []
    else CharsOf(steps[..|steps| - 1], k) + (if steps[|steps| - 1].0 == k then [steps[|steps| - 1].1] else [])
  }

  lemma {:induction false} CharsOfAppend(a: seq<Step>, b: seq<Step>, k: string)
    ensures CharsOf(a + b, k) == CharsOf(a, k) + CharsOf(b, k)
    decreases |b|
  {
    if b == [] {
      assert a + b == a;
    } else {
      var init := b[..|b| - 1];
      assert (a + b)[..|a + b| - 1] == a + init;
      CharsOfAppend(a, init, k);
    }
  }

  /** The transitions of the state k, in order; none when it is absent. */
  function KeysOf(t: Table, k: string): seq<char>
  {
    if k in t.entries then t.entries[k].keys else []
  }

  /** A state lists its transitions in the order they were first counted, after those it
      already had: the order `compile` gives them. */
  lemma {:induction false} ApplyAllOrder(t: Table, steps: seq<Step>, k: string)
    requires TableValid(t)
    ensures KeysOf(ApplyAll(t, steps), k) == FirstOccurrences(KeysOf(t, k) + CharsOf(steps, k))
    decreases |steps|
  {
    if steps == [] {
      assert KeysOf(t, k) + [] == KeysOf(t, k);
      FirstOccurrencesDistinct(KeysOf(t, k));
    } else {
      var init, x := steps[..|steps| - 1], steps[|steps| - 1];
      ApplyAllOrder(t, init, k);
      ApplyAllValid(t, init);
      var base := KeysOf(t, k) + CharsOf(init, k);
      assert KeysOf(t, k) + CharsOf(steps, k) == base + (if x.0 == k then [x.1] else []);
      IncOrder(ApplyAll(t, init), x, k, base);
    }
  }

  lemma IncOrder(t: Table, x: Step, k: string, base: seq<char>)
    requires TableValid(t) && KeysOf(t, k) == FirstOccurrences(base)
    ensures KeysOf(Inc(t, x), k) == FirstOccurrences(base + (if x.0 == k then [x.1] else []))
  {
    if x.0 == k {
      var d := if k in t.entries then t.entries[k] else Empty();
      assert d.keys == FirstOccurrences(base);
      assert x.1 in d.entries <==> x.1 in d.keys;
      assert KeysOf(Inc(t, x), k) == Incremented(d, x.1).keys;
      assert (base + [x.1])[..|base|] == base;
    } else {
      assert KeysOf(Inc(t, x), k) == KeysOf(t, k);
      assert base + [] == base;
    }
  }

  /** The counts of a table without the order of its keys. */
  function Counts(t: Table): map<string, map<char, int>>
  {
    map k | k in t.entries :: t.entries[k].entries
  }

  lemma MentionsPermuted(a: seq<Step>, b: seq<Step>, k: string)
    requires multiset(a) == multiset(b)
    ensures Mentions(a, k) ==> Mentions(b, k)
  {
    if Mentions(a, k) {
      var i :| 0 <= i < |a| && a[i].0 == k;
      assert a[i] in multiset(a);
      assert a[i] in b;
      var j :| 0 <= j < |b| && b[j] == a[i];
    }
  }

  lemma CountAgrees(t: Table, a: seq<Step>, b: seq<Step>, k: string, c: char)
    requires multiset(a) == multiset(b)
    ensures Has(ApplyAll(t, a), k, c) <==> Has(ApplyAll(t, b), k, c)
    ensures CountOf(ApplyAll(t, a), k, c) == CountOf(ApplyAll(t, b), k, c)
  {
    ApplyAllHas(t, a, k, c);
    ApplyAllHas(t, b, k, c);
    assert (k, c) in a <==> (k, c) in multiset(a);
    assert (k, c) in b <==> (k, c) in multiset(b);
    ApplyAllCount(t, a, k, c);
    ApplyAllCount(t, b, k, c);
    OccurrencesMultiset(a, (k, c));
    OccurrencesMultiset(b, (k, c));
  }

  lemma CountersAgree(t: Table, a: seq<Step>, b: seq<Step>, k: string)
    requires multiset(a) == multiset(b)
    requires k in ApplyAll(t, a).entries && k in ApplyAll(t, b).entries
    ensures ApplyAll(t, a).entries[k].entries == ApplyAll(t, b).entries[k].entries
  {
    var ta, tb := ApplyAll(t, a), ApplyAll(t, b);
    var ma, mb := ta.entries[k].entries, tb.entries[k].entries;
    forall c ensures c in ma <==> c in mb {
      CountAgrees(t, a, b, k, c);
    }
    forall c | c in ma ensures ma[c] == mb[c] {
      CountAgrees(t, a, b, k, c);
      assert CountOf(ta, k, c) == ma[c];
    }
  }

  /** The order of the increments does not matter to the counts. */
  lemma OrderIrrelevant(t: Table, a: seq<Step>, b: seq<Step>)
    requires multiset(a) == multiset(b)
    ensures Counts(ApplyAll(t, a)) == Counts(ApplyAll(t, b))
  {
    var ta, tb := ApplyAll(t, a), ApplyAll(t, b);
    forall k ensures k in ta.entries <==> k in tb.entries {
      ApplyAllKey(t, a, k);
      ApplyAllKey(t, b, k);
      MentionsPermuted(a, b, k);
      MentionsPermuted(b, a, k);
    }
    forall k | k in ta.entries ensures ta.entries[k].entries == tb.entries[k].entries {
      CountersAgree(t, a, b, k);
    }
  }

  // ---------------------------------------------------------------- process_string

  /** `s[max(0, i - L):i]`: the context of the character at position i. */
  function Window(s: string, i: nat, L: nat): (w: string)
    requires i <= |s|
  {
    s[if i > L then i - L else 0..i]
  }

  /** `[(key[-j:], c) for j in range(hi, lo, -1)]`: shorter suffixes of `key`, longest first. */
  function Suffixes(key: string, c: char, hi: int, lo: int): (r: seq<Step>)
    ensures |r| == if hi > lo then hi - lo else 0
    ensures forall m :: 0 <= m < |r| ==> r[m] == (Tail(key, hi - m), c)
  {
    seq(if hi > lo then hi - lo else 0, m => (Tail(key, hi - m), c))
  }

  /** The suffixes from length hi down to lo + 1 are those down to lo + 2, then `key[-(lo + 1):]`. */
  lemma SuffixesSnoc(key: string, c: char, hi: int, lo: int)
    requires lo < hi
    ensures Suffixes(key, c, hi, lo) == Suffixes(key, c, hi, lo + 1) + [(Tail(key, lo + 1), c)]
  {
  }

  /** The increments for the character `c` read in the context `key`: the context
      itself and, with `nested_seq`, each of its proper suffixes. */
  function StepIncrements(key: string, c: char, nested: bool): seq<Step>
  {
    [(key, c)] + (if nested then Suffixes(key, c, |key| - 1, 0) else [])
  }

  /** The increments for the end sentinel after the last context `key`: with `nested_seq`
      the suffix lengths run from `seq_len - 1` down, clamped to the whole key. */
  function EndIncrements(key: string, e: char, L: nat, nested: bool): seq<Step>
  {
    [(key, e)] + (if nested then Suffixes(key, e, L - 1, 0) else [])
  }

  /** The increments for the characters at positions 1 .. i-1. */
  function Body(s: string, L: nat, nested: bool, i: nat): seq<Step>
    requires 1 <= i <= |s|
  {
    if i == 1 then [] else Body(s, L, nested, i - 1) + StepIncrements(Window(s, i - 1, L), s[i - 1], nested)
  }

  /** Every increment `process_string(s)` performs, in order. */
  function Increments(cfg: Config, s: string): seq<Step>
    requires |s| >= 1
  {
    [([cfg.start], s[0])] + Body(s, cfg.seqLen, cfg.nested, |s|) +
    EndIncrements(Window(s, |s|, cfg.seqLen), cfg.end, cfg.seqLen, cfg.nested)
  }

  /** The increments up to position i + 1 are those up to i, then the step at position i. */
  lemma BodyStep(cfg: Config, s: string, i: nat)
    requires 1 <= i < |s|
    ensures [([cfg.start], s[0])] + Body(s, cfg.seqLen, cfg.nested, i + 1) ==
      ([([cfg.start], s[0])] + Body(s, cfg.seqLen, cfg.nested, i)) +
      StepIncrements(Window(s, i, cfg.seqLen), s[i], cfg.nested)
  {
  }

  /** Performing `a`, then `x`, then `rest`. */
  lemma ApplyAllThen(t: Table, a: seq<Step>, x: Step, rest: seq<Step>)
    ensures ApplyAll(t, a + ([x] + rest)) == ApplyAll(Inc(ApplyAll(t, a), x), rest)
  {
    assert a + ([x] + rest) == (a + [x]) + rest;
    ApplyAllAppend(t, a + [x], rest);
    ApplyAllSnoc(t, a, x);
  }

  /** Performing `x` and then `rest`. */
  lemma ApplyAllCons(t: Table, x: Step, rest: seq<Step>)
    ensures ApplyAll(t, [x] + rest) == ApplyAll(Inc(t, x), rest)
  {
    ApplyAllAppend(t, [x], rest);
    assert [x][..0] == [];
  }

  /** One more suffix increment, the next shorter context after those of lengths hi down to j+1. */
  lemma ApplyAllSuffixStep(t: Table, key: string, c: char, hi: int, j: int)
    requires j <= hi
    ensures ApplyAll(t, Suffixes(key, c, hi, j - 1)) == Inc(ApplyAll(t, Suffixes(key, c, hi, j)), (Tail(key, j), c))
  {
    SuffixesSnoc(key, c, hi, j - 1);
    ApplyAllSnoc(t, Suffixes(key, c, hi, j), (Tail(key, j), c));
  }

  /** The outcome of `process_string(s)`: the two sentinel assertions, then `string[0]`. */
  function IngestOutcome(cfg: Config, s: string): (r: Outcome)
    ensures r.Pass? <==> s != [] && cfg.start !in s && cfg.end !in s
  {
    if cfg.start in s then Fail(StartInString)
    else if cfg.end in s then Fail(EndInString)
    else if s == [] then Fail(EmptyString)
    else Pass
  }

  /** The table after `process_string(s)`. A string holding a sentinel changes nothing; an
      empty string fails at `string[0]` after `get_state(start)` has created the start state. */
  function Ingested(cfg: Config, t: Table, s: string): Table
  {
    if cfg.start in s || cfg.end in s then t
    else if s == [] then Touch(t, [cfg.start])
    else ApplyAll(t, Increments(cfg, s))
  }

  /** `process_strings(ss)`: the table and outcome after the strings in order, stopping
      at the first failure. */
  function IngestedAll(cfg: Config, t: Table, ss: seq<string>): (Table, Outcome)
    decreases |ss|
  {
    if ss == [] then (t, Pass)
    else
      var (t', o) := IngestedAll(cfg, t, ss[..|ss| - 1]);
      if o.Fail? then (t', o)
      else (Ingested(cfg, t', ss[|ss| - 1]), IngestOutcome(cfg, ss[|ss| - 1]))
  }

  /** The rolling context: appending the next character and keeping the last L gives the
      next window. */
  lemma WindowSlides(s: string, i: nat, L: nat)
    requires 1 <= i < |s| && L >= 1
    ensures Tail(Window(s, i, L) + [s[i]], L) == Window(s, i + 1, L)
  {
    var lo := if i > L then i - L else 0;
    assert Window(s, i, L) + [s[i]] == s[lo..i + 1];
  }

  lemma WindowBounds(s: string, i: nat, L: nat)
    requires 1 <= i <= |s| && L >= 1
    ensures |Window(s, i, L)| == Min(i, L)
    ensures i <= L ==> Window(s, i, L) == s[..i]
  {
  }

  /** The increments `process_string(s)` has performed when its loops reach position i:
      the start context on s[0], then the steps for positions 1 .. i-1. */
  function Prefix(cfg: Config, s: string, i: nat): seq<Step>
    requires 1 <= i <= |s|
  {
    [([cfg.start], s[0])] + Body(s, cfg.seqLen, cfg.nested, i)
  }

  /** Before either loop: only the start context has been counted. */
  lemma PrefixStart(cfg: Config, t: Table, s: string)
    requires |s| >= 1
    ensures ApplyAll(t, Prefix(cfg, s, 1)) == Inc(t, ([cfg.start], s[0]))
  {
    assert Prefix(cfg, s, 1) == [([cfg.start], s[0])];
    assert Prefix(cfg, s, 1)[..0] == [];
  }

  /** One iteration of either loop: the window before s[i] on s[i] and, with `nested_seq`,
      its suffixes from length `hi` down, where `hi` is one less than the window's length. */
  lemma PrefixStep(cfg: Config, t: Table, s: string, i: nat, hi: int)
    requires 1 <= i < |s| && cfg.seqLen >= 1 && hi == Min(i, cfg.seqLen) - 1
    ensures var w := Window(s, i, cfg.seqLen);
      ApplyAll(ApplyAll(t, Prefix(cfg, s, i)), [(w, s[i])] + (if cfg.nested then Suffixes(w, s[i], hi, 0) else [])) ==
      ApplyAll(t, Prefix(cfg, s, i + 1))
  {
    WindowBounds(s, i, cfg.seqLen);
    BodyStep(cfg, s, i);
    ApplyAllAppend(t, Prefix(cfg, s, i), StepIncrements(Window(s, i, cfg.seqLen), s[i], cfg.nested));
  }

  /** After both loops: the last window on the end sentinel and, with `nested_seq`, its
      suffixes from length `seq_len - 1` down complete the increments of `s`. */
  lemma PrefixEnd(cfg: Config, t: Table, s: string)
    requires |s| >= 1
    ensures var w := Window(s, |s|, cfg.seqLen);
      ApplyAll(ApplyAll(t, Prefix(cfg, s, |s|)), [(w, cfg.end)] + (if cfg.nested then Suffixes(w, cfg.end, cfg.seqLen - 1, 0) else [])) ==
      ApplyAll(t, Increments(cfg, s))
  {
    var w := Window(s, |s|, cfg.seqLen);
    assert Increments(cfg, s) == Prefix(cfg, s, |s|) + EndIncrements(w, cfg.end, cfg.seqLen, cfg.nested);
    ApplyAllAppend(t, Prefix(cfg, s, |s|), EndIncrements(w, cfg.end, cfg.seqLen, cfg.nested));
  }

  // ---------------------------------------------------------------- the non-nested case

  /** The increments of non-nested ingestion, written position by position: the start
      context on s[0], the window before each later character on that character, and the
      last window on the end sentinel. */
  function PlainSteps(cfg: Config, s: string): (r: seq<Step>)
    requires |s| >= 1
    ensures |r| == |s| + 1
  {
    seq(|s| + 1, i requires 0 <= i <= |s| =>
      if i == 0 then ([cfg.start], s[0])
      else if i < |s| then (Window(s, i, cfg.seqLen), s[i])
      else (Window(s, |s|, cfg.seqLen), cfg.end))
  }

  lemma {:induction false} PlainBody(s: string, L: nat, i: nat)
    requires 1 <= i <= |s|
    ensures |Body(s, L, false, i)| == i - 1
    ensures forall j :: 1 <= j < i ==> Body(s, L, false, i)[j - 1] == (Window(s, j, L), s[j])
  {
    if i > 1 {
      PlainBody(s, L, i - 1);
    }
  }

  /** Without `nested_seq`, ingesting s performs exactly the increments of `PlainSteps`. */
  lemma PlainIncrements(cfg: Config, s: string)
    requires !cfg.nested && |s| >= 1
    ensures Increments(cfg, s) == PlainSteps(cfg, s)
  {
    PlainBody(s, cfg.seqLen, |s|);
    var inc, p := Increments(cfg, s), PlainSteps(cfg, s);
    forall i | 0 <= i <= |s| ensures inc[i] == p[i] {
      if 1 <= i < |s| {
        assert inc[i] == Body(s, cfg.seqLen, false, |s|)[i - 1];
      }
    }
  }

  /** Without `nested_seq`, the count of (k, c) after ingesting a valid s is the count
      before plus the number of positions of `PlainSteps` that are (k, c). */
  lemma PlainIngestCount(cfg: Config, t: Table, s: string, k: string, c: char)
    requires !cfg.nested && IngestOutcome(cfg, s).Pass?
    ensures CountOf(Ingested(cfg, t, s), k, c) == CountOf(t, k, c) + Occurrences(PlainSteps(cfg, s), (k, c))
  {
    PlainIncrements(cfg, s);
    ApplyAllCount(t, Increments(cfg, s), k, c);
  }

  // ---------------------------------------------------------------- the nested end quirk

  /** Two suffixes of one key are equal exactly when their clamped lengths are. */
  lemma TailsEqual(key: string, i: nat, j: nat)
    requires 1 <= i && 1 <= j
    ensures Tail(key, i) == Tail(key, j) <==> Min(i, |key|) == Min(j, |key|)
  {
    if Min(i, |key|) != Min(j, |key|) {
      assert |Tail(key, i)| != |Tail(key, j)|;
    }
  }

  lemma SuffixesChars(key: string, c: char, hi: int, lo: int)
    ensures forall x :: x in Suffixes(key, c, hi, lo) ==> x.1 == c
  {
  }

  /** A proper suffix of `key` occurs once among `Suffixes(key, c, hi, lo)` when its
      length is in range, and not at all otherwise. */
  lemma {:induction false} SuffixesCountProper(key: string, c: char, hi: int, lo: nat, j: nat)
    requires 1 <= j < |key| && lo <= hi
    ensures Occurrences(Suffixes(key, c, hi, lo), (Tail(key, j), c)) == if lo < j <= hi then 1 else 0
    decreases hi - lo
  {
    if hi > lo {
      SuffixesCountProper(key, c, hi, lo + 1, j);
      ProperCountStep(key, c, hi, lo, j);
    }
  }

  lemma ProperCountStep(key: string, c: char, hi: int, lo: nat, j: nat)
    requires 1 <= j < |key| && lo < hi
    requires Occurrences(Suffixes(key, c, hi, lo + 1), (Tail(key, j), c)) == if lo + 1 < j <= hi then 1 else 0
    ensures Occurrences(Suffixes(key, c, hi, lo), (Tail(key, j), c)) == if lo < j <= hi then 1 else 0
  {
    SuffixesCountStep(key, c, hi, lo, (Tail(key, j), c));
    TailsEqual(key, j, lo + 1);
  }

  /** The whole key occurs among `Suffixes(key, c, hi, lo)` once for each length from
      max(lo + 1, |key|) to hi, because `key[-j:]` is all of key when j >= |key|. */
  lemma {:induction false} SuffixesCountWhole(key: string, c: char, hi: int, lo: nat)
    requires 1 <= |key| && lo <= hi
    ensures Occurrences(Suffixes(key, c, hi, lo), (key, c)) ==
      if hi < |key| then 0 else if lo >= |key| - 1 then hi - lo else hi - |key| + 1
    decreases hi - lo
  {
    if hi > lo {
      SuffixesCountWhole(key, c, hi, lo + 1);
      WholeCountStep(key, c, hi, lo);
    }
  }

  lemma WholeCountStep(key: string, c: char, hi: int, lo: nat)
    requires 1 <= |key| && lo < hi
    requires Occurrences(Suffixes(key, c, hi, lo + 1), (key, c)) ==
      if hi < |key| then 0 else if lo + 1 >= |key| - 1 then hi - lo - 1 else hi - |key| + 1
    ensures Occurrences(Suffixes(key, c, hi, lo), (key, c)) ==
      if hi < |key| then 0 else if lo >= |key| - 1 then hi - lo else hi - |key| + 1
  {
    SuffixesCountStep(key, c, hi, lo, (key, c));
    TailsEqual(key, |key|, lo + 1);
    assert Tail(key, |key|) == key;
  }

  /** The suffixes from length hi down to lo + 1 are those down to lo + 2, then `key[-(lo + 1):]`. */
  lemma SuffixesCountStep(key: string, c: char, hi: int, lo: int, y: Step)
    requires lo < hi
    ensures Occurrences(Suffixes(key, c, hi, lo), y) ==
      Occurrences(Suffixes(key, c, hi, lo + 1), y) + (if (Tail(key, lo + 1), c) == y then 1 else 0)
  {
    var rest, x := Suffixes(key, c, hi, lo + 1), (Tail(key, lo + 1), c);
    SuffixesSnoc(key, c, hi, lo);
    OccurrencesSnoc(rest, x, y);
  }

  lemma {:induction false} BodyChars(s: string, L: nat, nested: bool, i: nat)
    requires 1 <= i <= |s|
    ensures forall x :: x in Body(s, L, nested, i) ==> x.1 in s
  {
    if i > 1 {
      BodyChars(s, L, nested, i - 1);
      var w := Window(s, i - 1, L);
      SuffixesChars(w, s[i - 1], |w| - 1, 0);
    }
  }

  /** After increments `head` that never count the end sentinel, the end counts come only
      from the end increments: one for the last context, and one per suffix length. */
  lemma EndTally(head: seq<Step>, w: string, e: char, L: nat, k: string)
    requires forall x :: x in head ==> x.1 != e
    ensures Occurrences(head + EndIncrements(w, e, L, true), (k, e)) ==
      (if k == w then 1 else 0) + Occurrences(Suffixes(w, e, L - 1, 0), (k, e))
  {
    var sfx := Suffixes(w, e, L - 1, 0);
    assert (k, e) !in head;
    OccurrencesAbsent(head, (k, e));
    assert EndIncrements(w, e, L, true) == [(w, e)] + sfx;
    OccurrencesAppend(head, [(w, e)] + sfx, (k, e));
    OccurrencesAppend([(w, e)], sfx, (k, e));
    OccurrencesSnoc([], (w, e), (k, e));
    assert [] + [(w, e)] == [(w, e)];
  }

  /** The last context w (1 to L characters) gets 1 + L - |w| end counts: one of its own,
      plus one for each suffix length from |w| to L - 1 that `state[-i:]` clamps to w. */
  lemma WholeEndTally(head: seq<Step>, w: string, e: char, L: nat)
    requires 1 <= |w| <= L
    requires forall x :: x in head ==> x.1 != e
    ensures Occurrences(head + EndIncrements(w, e, L, true), (w, e)) == 1 + L - |w|
  {
    EndTally(head, w, e, L, w);
    SuffixesCountWhole(w, e, L - 1, 0);
  }

  /** Each proper suffix of the last context gets one end count. */
  lemma ProperEndTally(head: seq<Step>, w: string, e: char, L: nat, j: nat)
    requires 1 <= j < |w| <= L
    requires forall x :: x in head ==> x.1 != e
    ensures Occurrences(head + EndIncrements(w, e, L, true), (Tail(w, j), e)) == 1
  {
    assert |Tail(w, j)| == j;
    EndTally(head, w, e, L, Tail(w, j));
    SuffixesCountProper(w, e, L - 1, 0, j);
  }

  /** Every increment before the end increments counts a character of s. */
  lemma PrefixChars(cfg: Config, s: string)
    requires |s| >= 1
    ensures forall x :: x in Prefix(cfg, s, |s|) ==> x.1 in s
  {
    BodyChars(s, cfg.seqLen, cfg.nested, |s|);
    assert s[0] in s;
  }

  /** With `nested_seq`, ingesting a valid s gives the last context w (its last min(n, L)
      characters) 1 + L - |w| end counts: one of its own, plus one for each suffix length
      from |w| to L - 1 that `state[-i:]` clamps to w. Each proper suffix of w gets one. */
  lemma NestedEndCounts(cfg: Config, s: string)
    requires cfg.nested && cfg.seqLen >= 1 && IngestOutcome(cfg, s).Pass?
    ensures var w := Window(s, |s|, cfg.seqLen);
      |w| == Min(|s|, cfg.seqLen) &&
      Occurrences(Increments(cfg, s), (w, cfg.end)) == 1 + cfg.seqLen - |w| &&
      forall j :: 1 <= j < |w| ==> Occurrences(Increments(cfg, s), (Tail(w, j), cfg.end)) == 1
  {
    var w := Window(s, |s|, cfg.seqLen);
    WindowBounds(s, |s|, cfg.seqLen);
    PrefixChars(cfg, s);
    var head := Prefix(cfg, s, |s|);
    assert Increments(cfg, s) == head + EndIncrements(w, cfg.end, cfg.seqLen, true);
    WholeEndTally(head, w, cfg.end, cfg.seqLen);
    forall j | 1 <= j < |w|
      ensures Occurrences(Increments(cfg, s), (Tail(w, j), cfg.end)) == 1
    {
      ProperEndTally(head, w, cfg.end, cfg.seqLen, j);
    }
  }

  // ---------------------------------------------------------------- invariants of ingestion

  /** A context the builder can hold: the start sentinel, or 1 to L characters free of both sentinels. */
  predicate KeyOk(cfg: Config, k: string)
  {
    k == [cfg.start] || (1 <= |k| <= cfg.seqLen && cfg.start !in k && cfg.end !in k)
  }

  predicate StepOk(cfg: Config, x: Step)
  {
    KeyOk(cfg, x.0) && x.1 != cfg.start
  }

  /** The invariants of the builder's states: every context is the start sentinel or a
      short sentinel-free string, and no character counted is the start sentinel. */
  ghost predicate WellFormed(cfg: Config, t: Table)
  {
    forall k :: k in t.entries ==>
      KeyOk(cfg, k) && forall c :: c in t.entries[k].entries ==> c != cfg.start
  }

  lemma ApplyAllWellFormed(cfg: Config, t: Table, steps: seq<Step>)
    requires WellFormed(cfg, t)
    requires forall x :: x in steps ==> StepOk(cfg, x)
    ensures WellFormed(cfg, ApplyAll(t, steps))
  {
    var r := ApplyAll(t, steps);
    forall k | k in r.entries
      ensures KeyOk(cfg, k) && forall c :: c in r.entries[k].entries ==> c != cfg.start
    {
      ApplyAllKey(t, steps, k);
      if k !in t.entries {
        var i :| 0 <= i < |steps| && steps[i].0 == k;
        assert steps[i] in steps;
      }
      forall c | c in r.entries[k].entries ensures c != cfg.start {
        ApplyAllHas(t, steps, k, c);
      }
    }
  }

  lemma SliceAvoids(s: string, a: nat, b: nat, x: char)
    requires a <= b <= |s| && x !in s
    ensures x !in s[a..b]
  {
    forall j | 0 <= j < b - a ensures s[a..b][j] != x {
      assert s[a..b][j] == s[a + j];
    }
  }

  /** A context read from a valid string is an allowed key. */
  lemma WindowOk(cfg: Config, s: string, i: nat)
    requires cfg.seqLen >= 1 && 1 <= i <= |s| && cfg.start !in s && cfg.end !in s
    ensures KeyOk(cfg, Window(s, i, cfg.seqLen)) && |Window(s, i, cfg.seqLen)| >= 1
  {
    WindowBounds(s, i, cfg.seqLen);
    var lo := if i > cfg.seqLen then i - cfg.seqLen else 0;
    SliceAvoids(s, lo, i, cfg.start);
    SliceAvoids(s, lo, i, cfg.end);
  }

  lemma SuffixesOk(cfg: Config, key: string, c: char, hi: int, lo: nat)
    requires 1 <= |key| <= cfg.seqLen && cfg.start !in key && cfg.end !in key && c != cfg.start
    ensures forall x :: x in Suffixes(key, c, hi, lo) ==> StepOk(cfg, x)
  {
    var r := Suffixes(key, c, hi, lo);
    forall m | 0 <= m < |r| ensures StepOk(cfg, r[m]) {
      var tl := Tail(key, hi - m);
      SliceAvoids(key, |key| - |tl|, |key|, cfg.start);
      SliceAvoids(key, |key| - |tl|, |key|, cfg.end);
      assert key[|key| - |tl|..|key|] == tl;
    }
  }

  lemma {:induction false} BodyOk(cfg: Config, s: string, i: nat)
    requires cfg.seqLen >= 1 && 1 <= i <= |s| && cfg.start !in s && cfg.end !in s
    ensures forall x :: x in Body(s, cfg.seqLen, cfg.nested, i) ==> StepOk(cfg, x)
  {
    if i > 1 {
      BodyOk(cfg, s, i - 1);
      var w := Window(s, i - 1, cfg.seqLen);
      WindowOk(cfg, s, i - 1);
      assert s[i - 1] in s;
      SuffixesOk(cfg, w, s[i - 1], |w| - 1, 0);
    }
  }

  lemma IncrementsOk(cfg: Config, s: string)
    requires cfg.seqLen >= 1 && cfg.start != cfg.end && IngestOutcome(cfg, s).Pass?
    ensures forall x :: x in Increments(cfg, s) ==> StepOk(cfg, x)
  {
    BodyOk(cfg, s, |s|);
    var w := Window(s, |s|, cfg.seqLen);
    WindowOk(cfg, s, |s|);
    SuffixesOk(cfg, w, cfg.end, cfg.seqLen - 1, 0);
    assert s[0] in s;
  }

  /** Ingesting any string, valid or not, keeps the invariants of the builder's states. */
  lemma IngestedWellFormed(cfg: Config, t: Table, s: string)
    requires cfg.seqLen >= 1 && cfg.start != cfg.end && WellFormed(cfg, t)
    ensures WellFormed(cfg, Ingested(cfg, t, s))
  {
    if IngestOutcome(cfg, s).Pass? {
      IncrementsOk(cfg, s);
      ApplyAllWellFormed(cfg, t, Increments(cfg, s));
    }
  }

  lemma {:induction false} IngestedAllWellFormed(cfg: Config, t: Table, ss: seq<string>)
    requires cfg.seqLen >= 1 && cfg.start != cfg.end && WellFormed(cfg, t)
    ensures WellFormed(cfg, IngestedAll(cfg, t, ss).0)
    decreases |ss|
  {
    if ss != [] {
      IngestedAllWellFormed(cfg, t, ss[..|ss| - 1]);
      IngestedWellFormed(cfg, IngestedAll(cfg, t, ss[..|ss| - 1]).0, ss[|ss| - 1]);
    }
  }

  /** Ingesting two valid strings in either order gives the same counts. */
  lemma IngestOrderIrrelevant(cfg: Config, t: Table, s1: string, s2: string)
    requires IngestOutcome(cfg, s1).Pass? && IngestOutcome(cfg, s2).Pass?
    ensures Counts(Ingested(cfg, Ingested(cfg, t, s1), s2)) == Counts(Ingested(cfg, Ingested(cfg, t, s2), s1))
  {
    var a, b := Increments(cfg, s1), Increments(cfg, s2);
    ApplyAllAppend(t, a, b);
    ApplyAllAppend(t, b, a);
    assert multiset(a + b) == multiset(b + a);
    OrderIrrelevant(t, a + b, b + a);
  }

  /** The increments of the accepted strings among ss, in order: what `process_strings(ss)`
      performs when it accepts every string. */
  function AllIncrements(cfg: Config, ss: seq<string>): seq<Step>
    decreases |ss|
  {
    if ss == [] then []
    else
      var s := ss[|ss| - 1];
      AllIncrements(cfg, ss[..|ss| - 1]) + (if IngestOutcome(cfg, s).Pass? then Increments(cfg, s) else [])
  }

  lemma {:induction false} AllIncrementsAppend(cfg: Config, a: seq<string>, b: seq<string>)
    ensures AllIncrements(cfg, a + b) == AllIncrements(cfg, a) + AllIncrements(cfg, b)
    decreases |b|
  {
    if b == [] {
      assert a + b == a;
    } else {
      var init := b[..|b| - 1];
      assert (a + b)[..|a + b| - 1] == a + init;
      AllIncrementsAppend(cfg, a, init);
    }
  }

  /** When every string is accepted, `process_strings` performs their increments in order. */
  lemma {:induction false} IngestedAllAccepted(cfg: Config, t: Table, ss: seq<string>)
    requires forall i :: 0 <= i < |ss| ==> IngestOutcome(cfg, ss[i]).Pass?
    ensures IngestedAll(cfg, t, ss) == (ApplyAll(t, AllIncrements(cfg, ss)), Pass)
    decreases |ss|
  {
    if ss != [] {
      var init := ss[..|ss| - 1];
      IngestedAllAccepted(cfg, t, init);
      assert IngestOutcome(cfg, ss[|ss| - 1]).Pass?;
      ApplyAllAppend(t, AllIncrements(cfg, init), Increments(cfg, ss[|ss| - 1]));
    }
  }

  /** Permuting the strings permutes their increments. */
  lemma {:induction false} AllIncrementsPermuted(cfg: Config, a: seq<string>, b: seq<string>)
    requires multiset(a) == multiset(b)
    ensures multiset(AllIncrements(cfg, a)) == multiset(AllIncrements(cfg, b))
    decreases |a|
  {
    if a != [] {
      var init, x := a[..|a| - 1], a[|a| - 1];
      assert a == init + [x];
      assert x in multiset(b);
      var p :| 0 <= p < |b| && b[p] == x;
      var rest := b[..p] + b[p + 1..];
      assert b == b[..p] + [x] + b[p + 1..];
      assert multiset(b) == multiset(b[..p]) + multiset([x]) + multiset(b[p + 1..]);
      assert multiset(a) == multiset(init) + multiset([x]);
      assert multiset(rest) == multiset(b[..p]) + multiset(b[p + 1..]);
      assert multiset(init) == multiset(a) - multiset{x};
      assert multiset(rest) == multiset(b) - multiset{x};
      AllIncrementsPermuted(cfg, init, rest);
      AllIncrementsAppend(cfg, b[..p] + [x], b[p + 1..]);
      AllIncrementsAppend(cfg, b[..p], [x]);
      AllIncrementsAppend(cfg, b[..p], b[p + 1..]);
    }
  }

  /** `process_strings` on any reordering of accepted strings gives the same counts. */
  lemma IngestedAllOrderIrrelevant(cfg: Config, t: Table, a: seq<string>, b: seq<string>)
    requires multiset(a) == multiset(b)
    requires forall i :: 0 <= i < |a| ==> IngestOutcome(cfg, a[i]).Pass?
    ensures IngestedAll(cfg, t, b).1 == Pass
    ensures Counts(IngestedAll(cfg, t, a).0) == Counts(IngestedAll(cfg, t, b).0)
  {
    forall i | 0 <= i < |b| ensures IngestOutcome(cfg, b[i]).Pass? {
      assert b[i] in multiset(a);
    }
    IngestedAllAccepted(cfg, t, a);
    IngestedAllAccepted(cfg, t, b);
    AllIncrementsPermuted(cfg, a, b);
    OrderIrrelevant(t, AllIncrements(cfg, a), AllIncrements(cfg, b));
  }

  // ---------------------------------------------------------------- positive counts

  /** Every count is positive: true of anything the builder counts itself, though a
      loaded builder may hold any integers. */
  ghost predicate Positive(t: Table)
  {
    forall k :: k in t.entries ==> forall c :: c in t.entries[k].entries ==> t.entries[k].entries[c] > 0
  }

  lemma {:induction false} ApplyAllPositive(t: Table, steps: seq<Step>)
    requires Positive(t)
    ensures Positive(ApplyAll(t, steps))
    decreases |steps|
  {
    if steps != [] {
      var init := steps[..|steps| - 1];
      ApplyAllPositive(t, init);
      var t', x := ApplyAll(t, init), steps[|steps| - 1];
      var r := Inc(t', x);
      forall k, c | k in r.entries && c in r.entries[k].entries ensures r.entries[k].entries[c] > 0 {
        IncEffect(t', x, k, c);
        if (k, c) != x {
          assert Has(t', k, c);
        }
      }
    }
  }

  /** Ingestion keeps every count positive. */
  lemma IngestedPositive(cfg: Config, t: Table, s: string)
    requires Positive(t)
    ensures Positive(Ingested(cfg, t, s))
  {
    if IngestOutcome(cfg, s).Pass? {
      ApplyAllPositive(t, Increments(cfg, s));
    }
  }

  // ---------------------------------------------------------------- compile

  function SumInts(s: seq<int>): int
  {
    if s == [] then 0 else s[0] + SumInts(s[1..])
  }

  /** The counts of a state in the order of its transitions (`zip(*transitions.items())`). */
  function CountsInOrder(d: Counter): (r: seq<int>)
    requires d.Valid()
    ensures |r| == |d.keys|
    ensures forall i :: 0 <= i < |r| ==> r[i] == d.entries[d.keys[i]]
  {
    seq(|d.keys|, i requires 0 <= i < |d.keys| => d.entries[d.keys[i]])
  }

  /** `np.sum(counts)` */
  function Total(d: Counter): int
    requires d.Valid()
  {
    SumInts(CountsInOrder(d))
  }

  lemma DivSelf(x: real)
    requires x != 0.0
    ensures x / x == 1.0
  {
  }

  lemma AddFractions(x: real, y: real, total: real)
    requires total != 0.0
    ensures x / total + y / total == (x + y) / total
  {
  }

  /** Dividing every count by their sum gives fractions that sum to the sum over itself. */
  lemma {:induction false} SumScaled(p: seq<real>, a: seq<int>, total: real)
    requires total != 0.0 && |p| == |a|
    requires forall i :: 0 <= i < |p| ==> p[i] == a[i] as real / total
    ensures SumReals(p) == SumInts(a) as real / total
  {
    if p != [] {
      SumScaled(p[1..], a[1..], total);
      AddFractions(a[0] as real, SumInts(a[1..]) as real, total);
    }
  }

  lemma {:induction false} SumUniform(p: seq<real>, v: real)
    requires forall i :: 0 <= i < |p| ==> p[i] == v
    ensures SumReals(p) == |p| as real * v
  {
    if p != [] {
      SumUniform(p[1..], v);
    }
  }

  /** `np.full(n, 1 / n)`: n equal probabilities, summing to 1. */
  function UniformProbs(n: nat): (p: seq<real>)
    requires n > 0
    ensures |p| == n && SumReals(p) == 1.0
    ensures forall i :: 0 <= i < n ==> p[i] == 1.0 / n as real
  {
    var p := seq(n, _ => 1.0 / n as real);
    SumUniform(p, 1.0 / n as real);
    p
  }

  /** `counts / np.sum(counts)`: fractions of a nonzero sum, summing to 1. */
  function ScaledProbs(a: seq<int>): (p: seq<real>)
    requires SumInts(a) != 0
    ensures |p| == |a| && SumReals(p) == 1.0
    ensures forall i :: 0 <= i < |a| ==> p[i] == a[i] as real / SumInts(a) as real
  {
    var total := SumInts(a) as real;
    var p := seq(|a|, i requires 0 <= i < |a| => a[i] as real / total);
    SumScaled(p, a, total);
    DivSelf(total);
    p
  }

  /** `MarkovChainBuilderState.compile`: the transitions in first-seen order, each with its
      count over the total, or all equally likely when the counts sum to 0. A state with
      no transitions cannot be compiled. */
  function CompileState(key: string, d: Counter): (r: Result<MarkovChainState>)
    requires d.Valid()
    ensures r.Err? <==> d.keys == []
    ensures r.Err? ==> r.error == NoTransitions
    ensures r.Ok? ==> r.value.state == key && r.value.transitions == d.keys && |r.value.probs| == |d.keys|
    ensures r.Ok? ==> SumReals(r.value.probs) == 1.0
    ensures r.Ok? && Total(d) != 0 ==>
      forall i :: 0 <= i < |d.keys| ==> r.value.probs[i] == d.entries[d.keys[i]] as real / Total(d) as real
    ensures r.Ok? && Total(d) == 0 ==>
      forall i :: 0 <= i < |d.keys| ==> r.value.probs[i] == 1.0 / |d.keys| as real
  {
    if d.keys == [] then Err(NoTransitions) else Ok(Compiled(key, d))
  }

  /** The state compiled from a counter that has at least one transition. */
  function Compiled(key: string, d: Counter): (r: MarkovChainState)
    requires d.Valid() && d.keys != []
    ensures r.state == key && r.transitions == d.keys
  {
    if Total(d) == 0 then MarkovChainState(key, d.keys, UniformProbs(|d.keys|))
    else MarkovChainState(key, d.keys, ScaledProbs(CountsInOrder(d)))
  }

  lemma Fraction(x: real, total: real)
    requires 0.0 < x <= total
    ensures 0.0 < x / total <= 1.0
  {
    assert x / total <= total / total;
  }

  lemma {:induction false} SumBounds(a: seq<int>, i: nat)
    requires i < |a| && forall j :: 0 <= j < |a| ==> a[j] > 0
    ensures 0 < a[i] <= SumInts(a)
  {
    if i > 0 {
      SumBounds(a[1..], i - 1);
    } else if |a| > 1 {
      SumBounds(a[1..], 0);
    }
  }

  /** With positive counts every transition gets a probability in (0, 1]. */
  lemma CompiledProbsBounded(key: string, d: Counter)
    requires d.Valid() && d.keys != []
    requires forall c :: c in d.entries ==> d.entries[c] > 0
    ensures forall i :: 0 <= i < |d.keys| ==> 0.0 < CompileState(key, d).value.probs[i] <= 1.0
  {
    var counts := CountsInOrder(d);
    SumBounds(counts, 0);
    forall i | 0 <= i < |d.keys| ensures 0.0 < CompileState(key, d).value.probs[i] <= 1.0 {
      SumBounds(counts, i);
      Fraction(counts[i] as real, Total(d) as real);
    }
  }

  /** A chain compiled from positive counts passes the checks of `np.random.choice` in
      every state, so generating from it never fails on its probabilities. */
  lemma CompiledProbsValid(t: Table)
    requires TableValid(t) && Positive(t) && CompileTable(t).Ok?
    ensures forall k :: k in t.entries ==> CompileTable(t).value.entries[k].ProbsValid()
  {
    forall k | k in t.entries ensures CompileTable(t).value.entries[k].ProbsValid() {
      var d := t.entries[k];
      CompiledProbsBounded(k, d);
    }
  }

  /** `MarkovChainBuilder.compile`'s dict comprehension: every state compiled, in the
      builder's order; it fails when any state has no transitions. */
  function CompileTable(t: Table): (r: Result<Dict<string, MarkovChainState>>)
    requires TableValid(t)
    ensures r.Err? <==> exists k :: k in t.entries && t.entries[k].keys == []
    ensures r.Err? ==> r.error == NoTransitions
    ensures r.Ok? ==> r.value.Valid() && r.value.keys == t.keys && r.value.entries.Keys == t.entries.Keys
    ensures r.Ok? ==> forall k :: k in t.entries ==> Ok(r.value.entries[k]) == CompileState(k, t.entries[k])
  {
    if exists k :: k in t.entries && t.entries[k].keys == [] then Err(NoTransitions)
    else Ok(CompiledStates(t))
  }

  /** The compiled states of a table whose every state has a transition, under the table's keys. */
  function CompiledStates(t: Table): (r: Dict<string, MarkovChainState>)
    requires TableValid(t)
    requires forall k :: k in t.entries ==> t.entries[k].keys != []
    ensures r.keys == t.keys && r.entries.Keys == t.entries.Keys
    ensures forall k :: k in t.entries ==> r.entries[k] == Compiled(k, t.entries[k])
  {
    Dict(t.keys, map k | k in t.entries :: Compiled(k, t.entries[k]))
  }

  /** The chain compiled from a table files every state under its own context, and every
      state's probabilities sum to 1. */
  lemma CompiledChainValid(t: Table, start: string, end: string, seqLen: int)
    requires TableValid(t) && CompileTable(t).Ok?
    ensures var c := MarkovChain(CompileTable(t).value, start, end, seqLen);
      c.Valid() &&
      forall k :: k in c.states.entries ==>
        c.states.entries[k].transitions == t.entries[k].keys && SumReals(c.states.entries[k].probs) == 1.0
  {
  }

  /** What a chain compiled from the builder's states generates never holds the start
      sentinel, because no state counts it as a next character. */
  lemma CompiledOutputAvoidsStart(cfg: Config, t: Table, out: string)
    requires TableValid(t) && WellFormed(cfg, t) && CompileTable(t).Ok?
    requires MarkovChain(CompileTable(t).value, [cfg.start], [cfg.end], cfg.seqLen).FollowsChain(out)
    ensures cfg.start !in out
  {
    var c := MarkovChain(CompileTable(t).value, [cfg.start], [cfg.end], cfg.seqLen);
    forall i | 0 <= i < |out| ensures out[i] != cfg.start {
      var k := c.Key(out[..i]);
      assert out[i] in c.states.entries[k].transitions;
      assert out[i] in t.entries[k].keys;
    }
  }

  // ---------------------------------------------------------------- compilable tables

  /** Every state has at least one transition, so `compile` can unpack each of them. */
  ghost predicate NoEmptyState(t: Table)
  {
    forall k :: k in t.entries ==> t.entries[k].keys != []
  }

  /** Increments never leave a state without transitions: a state that had one keeps
      it, and a new state gets the character it was created for. */
  lemma ApplyAllNoEmpty(t: Table, steps: seq<Step>)
    requires TableValid(t) && NoEmptyState(t)
    ensures NoEmptyState(ApplyAll(t, steps))
  {
    var r := ApplyAll(t, steps);
    ApplyAllValid(t, steps);
    forall k | k in r.entries ensures r.entries[k].keys != [] {
      ApplyAllKey(t, steps, k);
      var c: char;
      if k in t.entries {
        c := t.entries[k].keys[0];
      } else {
        var i :| 0 <= i < |steps| && steps[i].0 == k;
        c := steps[i].1;
        assert (k, c) == steps[i];
      }
      ApplyAllHas(t, steps, k, c);
      assert c in r.entries[k].entries;
    }
  }

  /** A builder trained only on strings `process_string` accepts can always be compiled. */
  lemma {:induction false} TrainedCompiles(cfg: Config, t: Table, ss: seq<string>)
    requires TableValid(t) && NoEmptyState(t)
    requires forall i :: 0 <= i < |ss| ==> IngestOutcome(cfg, ss[i]).Pass?
    ensures IngestedAll(cfg, t, ss).1 == Pass
    ensures TableValid(IngestedAll(cfg, t, ss).0) && CompileTable(IngestedAll(cfg, t, ss).0).Ok?
    decreases |ss|
  {
    if ss != [] {
      var init := ss[..|ss| - 1];
      TrainedCompiles(cfg, t, init);
      var t' := IngestedAll(cfg, t, init).0;
      assert IngestOutcome(cfg, ss[|ss| - 1]).Pass?;
      ApplyAllValid(t', Increments(cfg, ss[|ss| - 1]));
      ApplyAllNoEmpty(t', Increments(cfg, ss[|ss| - 1]));
    }
  }

  /** An empty string fails at `string[0]` only after `get_state(start)` has created an
      empty start state; from then on `compile` fails on that state. */
  lemma EmptyStringBlocksCompile(cfg: Config, t: Table)
    requires TableValid(t) && [cfg.start] !in t.entries
    ensures IngestOutcome(cfg, []) == Fail(EmptyString)
    ensures TableValid(Ingested(cfg, t, [])) && CompileTable(Ingested(cfg, t, [])).Err?
  {
    TouchOthers(t, [cfg.start]);
    assert Ingested(cfg, t, []).entries[[cfg.start]].keys == [];
  }

  /** `process_string` with `string[0]` read before `get_state(self.start)`: a string it
      rejects leaves the counts as they were. */
  function IngestedChecked(cfg: Config, t: Table, s: string): (r: Table)
    ensures IngestOutcome(cfg, s).Fail? ==> r == t
    ensures s != [] ==> r == Ingested(cfg, t, s)
  {
    if IngestOutcome(cfg, s).Fail? then t else ApplyAll(t, Increments(cfg, s))
  }

  /** With the empty-string test first, no string, accepted or rejected, makes a compilable builder
      uncompilable. */
  lemma CheckedKeepsCompilable(cfg: Config, t: Table, s: string)
    requires TableValid(t) && NoEmptyState(t)
    ensures TableValid(IngestedChecked(cfg, t, s)) && NoEmptyState(IngestedChecked(cfg, t, s))
    ensures CompileTable(IngestedChecked(cfg, t, s)).Ok?
  {
    if IngestOutcome(cfg, s).Pass? {
      ApplyAllValid(t, Increments(cfg, s));
      ApplyAllNoEmpty(t, Increments(cfg, s));
    }
  }
}
