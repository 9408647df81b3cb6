/** The compiled chain: `MarkovChainState` (one context's next-character distribution)
    and `MarkovChain` (all contexts, plus the sentinels and the order), the generation
    loop, and the record form that `to_json` / `from_json` convert to and from. */
module Chain {
  import opened Basics
  import opened Dicts

  /** The cap on the number of steps of one generation attempt (`MAX_LENGTH`). */
  const MaxLength: nat := 30

  /** `{"state": …, "transitions": […], "probs": […]}` */
  datatype StateRecord = StateRecord(state: string, transitions: seq<char>, probs: seq<real>)

  /** `{"seq_len": …, "start": …, "end": …, "states": […]}` */
  datatype ChainRecord = ChainRecord(seqLen: int, start: string, end: string, states: seq<StateRecord>)

  /** One context with its transition characters and their probabilities, position by position. */
  datatype MarkovChainState = MarkovChainState(state: string, transitions: seq<char>, probs: seq<real>) {

    /** What `np.random.choice` demands of `p`: one probability per transition, none
        negative, summing to 1. */
    predicate ProbsValid()
    {
      |probs| == |transitions| && (forall i :: 0 <= i < |probs| ==> probs[i] >= 0.0) && SumReals(probs) == 1.0
    }

    /** Some position holding c has a positive probability. */
    ghost predicate Likely(c: char)
    {
      exists i :: 0 <= i < |transitions| && i < |probs| && probs[i] > 0.0 && transitions[i] == c
    }

    /** `get_next`: `np.random.choice(self.transitions, p=self.probs)`. An empty list of
        transitions fails first, then probabilities `ProbsValid` rejects. The weighted
        random choice is an oracle: `draw` picks among the positions of positive probability. */
    function GetNext(draw: nat): (r: Result<char>)
      ensures r.Err? <==> transitions == [] || !ProbsValid()
      ensures transitions == [] ==> r == Err(EmptyChoice)
      ensures transitions != [] && !ProbsValid() ==> r == Err(InvalidProbs)
      ensures r.Ok? ==> r.value in transitions && Likely(r.value)
    {
      if transitions == [] then Err(EmptyChoice)
      else if !ProbsValid() then Err(InvalidProbs)
      else Ok(transitions[Pick(probs, draw)])
    }

    /** Every position of positive probability is picked by some draw. */
    lemma GetNextReaches(i: nat)
      requires ProbsValid() && i < |transitions| && probs[i] > 0.0
      ensures exists draw :: GetNext(draw) == Ok(transitions[i])
    {
      var pos := PositiveIndices(probs);
      PositiveIndicesComplete(probs, i);
      var j :| 0 <= j < |pos| && pos[j] == i;
      GetNextAt(j);
    }

    /** The draw j picks the j-th position of positive probability. */
    lemma GetNextAt(j: nat)
      requires ProbsValid() && transitions != [] && j < |PositiveIndices(probs)|
      ensures GetNext(j) == Ok(transitions[PositiveIndices(probs)[j]])
    {
      SomePositive(probs);
    }

    function ToJson(): (r: StateRecord)
      ensures FromJson(r) == this
    {
      StateRecord(state, transitions, probs)
    }

    static function FromJson(rec: StateRecord): MarkovChainState
    {
      MarkovChainState(rec.state, rec.transitions, rec.probs)
    }
  }

  /** How one iteration of the generation loop ends: the attempt stops with a result, or
      goes on from the next state with the longer output. */
  datatype Move = Stop(result: Result<string>) | Go(current: MarkovChainState, output: string)

  /** The compiled chain; it is never changed after it is built. */
  datatype MarkovChain = MarkovChain(states: Dict<string, MarkovChainState>, start: string, end: string, seqLen: int) {

    /** Every chain built by compiling a builder or by `FromJson` has this shape:
        each state is filed under its own context. */
    ghost predicate Valid()
    {
      states.Valid() && forall k :: k in states.entries ==> states.entries[k].state == k
    }

    /** The context looked up after `out` has been generated: the start sentinel at first,
        then `''.join(output[-seq_len:])`. */
    function Key(out: string): string
    {
      if out == [] then start else Tail(out, seqLen)
    }

    /** `out` is a path through the chain: every character was a transition of the state
        of the context before it, and every context looked up on the way exists. */
    ghost predicate FollowsChain(out: string)
    {
      Key(out) in states.entries &&
      forall k :: 0 <= k < |out| ==>
        Key(out[..k]) in states.entries && out[k] in states.entries[Key(out[..k])].transitions
    }

    /** No character of `out` is the end sentinel. */
    ghost predicate NoEnd(out: string)
    {
      forall i :: 0 <= i < |out| ==> [out[i]] != end
    }

    /** The rest of one generation attempt from the state `cur`, after `out` has been
        generated in `step` steps; step i uses the draw `draw(i)`. */
    function Walk(cur: MarkovChainState, out: string, step: nat, draw: nat -> nat): Result<string>
      decreases MaxLength - step
    {
      if step >= MaxLength then Ok(out)
      else match cur.GetNext(draw(step))
        case Err(e) => Err(e)
        case Ok(t) =>
          if [t] == end then Ok(out)
          else
            var key := Tail(out + [t], seqLen);
            if key in states.entries then Walk(states.entries[key], out + [t], step + 1, draw)
            else Err(MissingState(key))
    }

    /** The outcome of `_generate_string` for the given draws. */
    function Generated(draw: nat -> nat): Result<string>
    {
      if start in states.entries then Walk(states.entries[start], [], 0, draw) else Err(MissingState(start))
    }

    /** Appending a transition of the current context, other than the end sentinel, keeps
        the output a path through the chain, provided the next context exists. */
    lemma ExtendFollows(out: string, t: char)
      requires FollowsChain(out) && NoEnd(out)
      requires t in states.entries[Key(out)].transitions && [t] != end
      requires Key(out + [t]) in states.entries
      ensures FollowsChain(out + [t]) && NoEnd(out + [t])
    {
      var out' := out + [t];
      forall k | 0 <= k < |out'|
        ensures Key(out'[..k]) in states.entries && out'[k] in states.entries[Key(out'[..k])].transitions
      {
        if k < |out| {
          assert out'[..k] == out[..k];
        } else {
          assert out'[..k] == out;
        }
      }
    }

    /** A finished walk stays within the step cap, never holds the end sentinel and follows the chain. */
    lemma {:induction false} WalkSound(cur: MarkovChainState, out: string, step: nat, draw: nat -> nat)
      requires step <= MaxLength && |out| == step
      requires FollowsChain(out) && NoEnd(out) && cur == states.entries[Key(out)]
      ensures Walk(cur, out, step, draw).Ok? ==>
        var o := Walk(cur, out, step, draw).value;
        |o| <= MaxLength && FollowsChain(o) && NoEnd(o)
      decreases MaxLength - step
    {
      if step < MaxLength {
        var next := cur.GetNext(draw(step));
        WalkStops(cur, out, step, draw);
        if next.Ok? && [next.value] != end {
          var key := Tail(out + [next.value], seqLen);
          if key in states.entries {
            WalkNext(cur, out, step, draw, next.value);
            ExtendFollows(out, next.value);
            WalkSound(states.entries[key], out + [next.value], step + 1, draw);
          }
        }
      }
    }

    /** One step of a walk that draws a character other than the end sentinel whose next context exists. */
    lemma WalkNext(cur: MarkovChainState, out: string, step: nat, draw: nat -> nat, t: char)
      requires step < MaxLength && cur.GetNext(draw(step)) == Ok(t) && [t] != end
      requires Tail(out + [t], seqLen) in states.entries
      ensures Walk(cur, out, step, draw) == Walk(states.entries[Tail(out + [t], seqLen)], out + [t], step + 1, draw)
    {
    }

    /** The ways one step of a walk ends it: a failed draw, the end sentinel, or a missing next context. */
    lemma WalkStops(cur: MarkovChainState, out: string, step: nat, draw: nat -> nat)
      requires step < MaxLength
      ensures cur.GetNext(draw(step)).Err? ==> Walk(cur, out, step, draw) == Err(cur.GetNext(draw(step)).error)
      ensures cur.GetNext(draw(step)).Ok? && [cur.GetNext(draw(step)).value] == end ==> Walk(cur, out, step, draw) == Ok(out)
      ensures var next := cur.GetNext(draw(step));
        next.Ok? && [next.value] != end && Tail(out + [next.value], seqLen) !in states.entries ==>
          Walk(cur, out, step, draw) == Err(MissingState(Tail(out + [next.value], seqLen)))
    {
    }

    /** One iteration of `_generate_string`'s loop: draw the next character, stop on the
        end sentinel, otherwise append it and look up the next context. */
    method Turn(current: MarkovChainState, output: string, i: nat, draw: nat -> nat) returns (m: Move)
      requires i < MaxLength
      ensures m.Stop? ==> m.result == Walk(current, output, i, draw)
      ensures m.Stop? && m.result.Ok? ==> m.result.value == output
      ensures m.Go? ==> Walk(current, output, i, draw) == Walk(m.current, m.output, i + 1, draw)
    {
      var transition := current.GetNext(draw(i));
      WalkStops(current, output, i, draw);
      if transition.Err? {
        return Stop(Err(transition.error));
      }
      if [transition.value] == end {
        return Stop(Ok(output));
      }
      var next := output + [transition.value];
      var state := Tail(next, seqLen);
      if state !in states.entries {
        return Stop(Err(MissingState(state)));
      }
      WalkNext(current, output, i, draw, transition.value);
      m := Go(states.entries[state], next);
    }

    /** `_generate_string`, with the random choices supplied by `draw`. */
    method GenerateOnce(draw: nat -> nat) returns (r: Result<string>)
      ensures r == Generated(draw)
      ensures r.Ok? ==> |r.value| <= MaxLength && FollowsChain(r.value) && NoEnd(r.value)
    {
      GeneratedSound(draw);
      if start !in states.entries {
        return Err(MissingState(start));
      }
      ghost var goal := Generated(draw);
      var output: string := [];
      var current := states.entries[start];
      var i := 0;
      while i < MaxLength
        invariant i <= MaxLength
        invariant goal == Walk(current, output, i, draw)
      {
        var m := Turn(current, output, i, draw);
        if m.Stop? {
          if m.result.Err? {
            return m.result;
          }
          break;
        }
        current, output := m.current, m.output;
        i := i + 1;
      }
      r := Ok(output);
    }

    /** Every string a generation attempt returns stays within the cap, never holds the
        end sentinel and follows the chain. */
    lemma GeneratedSound(draw: nat -> nat)
      ensures Generated(draw).Ok? ==>
        |Generated(draw).value| <= MaxLength && FollowsChain(Generated(draw).value) && NoEnd(Generated(draw).value)
    {
      if start in states.entries {
        assert Key([]) == start;
        WalkSound(states.entries[start], [], 0, draw);
      }
    }

    /** The draws of attempt number `attempt`. */
    static function AttemptDraws(draw: (nat, nat) -> nat, attempt: nat): nat -> nat
    {
      (i: nat) => draw(attempt, i)
    }

    /** The outcome of `generate_string(min_len)` from attempt `attempt` on, when at most
        `retries` retries follow the first attempt. */
    function Retried(minLen: int, draw: (nat, nat) -> nat, attempt: nat, retries: nat): Result<string>
      decreases retries - attempt
    {
      match Generated(AttemptDraws(draw, attempt))
      case Err(e) => Err(e)
      case Ok(o) =>
        if |o| >= minLen then Ok(o)
        else if attempt >= retries then Err(RetriesExhausted)
        else Retried(minLen, draw, attempt + 1, retries)
    }

    /** `generate_string(min_len)`: attempts are repeated until one is at least `minLen`
        long. The source retries without bound; here at most `retries` times. */
    method GenerateString(minLen: int, draw: (nat, nat) -> nat, retries: nat) returns (r: Result<string>)
      ensures r == Retried(minLen, draw, 0, retries)
      ensures r.Ok? ==> minLen <= |r.value| <= MaxLength && FollowsChain(r.value) && NoEnd(r.value)
      ensures minLen > MaxLength ==> r.Err?
    {
      var attempt := 0;
      r := GenerateOnce(AttemptDraws(draw, 0));
      GeneratedSound(AttemptDraws(draw, 0));
      while r.Ok? && |r.value| < minLen
        invariant attempt <= retries
        invariant r == Generated(AttemptDraws(draw, attempt))
        invariant Retried(minLen, draw, 0, retries) == Retried(minLen, draw, attempt, retries)
        invariant r.Ok? ==> |r.value| <= MaxLength && FollowsChain(r.value) && NoEnd(r.value)
        decreases retries - attempt
      {
        if attempt >= retries {
          return Err(RetriesExhausted);
        }
        attempt := attempt + 1;
        r := GenerateOnce(AttemptDraws(draw, attempt));
        GeneratedSound(AttemptDraws(draw, attempt));
      }
    }

    /** `to_json`: the states in the dict's order. */
    function ToJson(): (r: ChainRecord)
      requires states.Valid()
      ensures r.seqLen == seqLen && r.start == start && r.end == end
      ensures |r.states| == |states.keys|
      ensures forall i :: 0 <= i < |r.states| ==> r.states[i] == states.entries[states.keys[i]].ToJson()
    {
      ChainRecord(seqLen, start, end,
        seq(|states.keys|, i requires 0 <= i < |states.keys| => states.entries[states.keys[i]].ToJson()))
    }

    /** `from_json`: a later record with the same context replaces an earlier one, and
        the context keeps the place of its first record. */
    static function FromJson(rec: ChainRecord): (c: MarkovChain)
      ensures c.Valid()
      ensures c.seqLen == rec.seqLen && c.start == rec.start && c.end == rec.end
      ensures c.states.keys == FirstOccurrences(Contexts(rec.states))
      ensures forall i :: 0 <= i < |rec.states| ==> rec.states[i].state in c.states.entries
      ensures forall i :: 0 <= i < |rec.states| && (forall j :: i < j < |rec.states| ==> rec.states[j].state != rec.states[i].state) ==>
        c.states.entries[rec.states[i].state].ToJson() == rec.states[i]
      ensures forall k :: k in c.states.entries ==> c.states.entries[k].ToJson() in rec.states
    {
      MarkovChain(LoadedStates(rec.states), rec.start, rec.end, rec.seqLen)
    }
  }

  function SumReals(s: seq<real>): real
  {
    if s == [] then 0.0 else s[0] + SumReals(s[1..])
  }

  /** The positions of p holding a positive number, in increasing order. */
  function PositiveIndices(p: seq<real>): (r: seq<nat>)
    ensures forall j :: 0 <= j < |r| ==> r[j] < |p| && p[r[j]] > 0.0
    decreases |p|
  {
    if p == [] then []
    else if p[|p| - 1] > 0.0 then PositiveIndices(p[..|p| - 1]) + [|p| - 1]
    else PositiveIndices(p[..|p| - 1])
  }

  /** Every positive position is listed. */
  lemma {:induction false} PositiveIndicesComplete(p: seq<real>, i: nat)
    requires i < |p| && p[i] > 0.0
    ensures i in PositiveIndices(p)
    decreases |p|
  {
    if i < |p| - 1 {
      PositiveIndicesComplete(p[..|p| - 1], i);
    }
  }

  /** `a % n` for a positive n, by repeated subtraction. */
  function Round(a: nat, n: nat): (r: nat)
    requires n > 0
    ensures r < n
    ensures a < n ==> r == a
    decreases a
  {
    if a < n then a else Round(a - n, n)
  }

  /** The position of p the draw picks: the draw-th positive one, counting round again
      past the last. */
  function Pick(p: seq<real>, draw: nat): (r: nat)
    requires (forall i :: 0 <= i < |p| ==> p[i] >= 0.0) && SumReals(p) == 1.0
    ensures r < |p| && p[r] > 0.0
  {
    SomePositive(p);
    PositiveIndices(p)[Round(draw, |PositiveIndices(p)|)]
  }

  /** Numbers that are all 0 sum to 0. */
  lemma {:induction false} SumZeros(p: seq<real>)
    requires forall i :: 0 <= i < |p| ==> p[i] == 0.0
    ensures SumReals(p) == 0.0
  {
    if p != [] {
      SumZeros(p[1..]);
    }
  }

  /** Non-negative numbers summing to 1 include a positive one. */
  lemma SomePositive(p: seq<real>)
    requires (forall i :: 0 <= i < |p| ==> p[i] >= 0.0) && SumReals(p) == 1.0
    ensures PositiveIndices(p) != []
  {
    if PositiveIndices(p) == [] {
      forall i | 0 <= i < |p| ensures p[i] == 0.0 {
        if p[i] > 0.0 {
          PositiveIndicesComplete(p, i);
        }
      }
      SumZeros(p);
    }
  }

  /** `{s['state']: MarkovChainState.from_json(s) for s in obj['states']}` */
  function LoadedStates(recs: seq<StateRecord>): (d: Dict<string, MarkovChainState>)
    ensures d.Valid() && d.keys == FirstOccurrences(Contexts(recs))
    ensures forall i :: 0 <= i < |recs| ==> recs[i].state in d.entries
    ensures forall i :: 0 <= i < |recs| && (forall j :: i < j < |recs| ==> recs[j].state != recs[i].state) ==>
      d.entries[recs[i].state] == MarkovChainState.FromJson(recs[i])
    ensures forall k :: k in d.entries ==> d.entries[k].state == k && d.entries[k].ToJson() in recs
  {
    LoadedOrder(recs);
    LoadedFrom(recs);
    FromItems(StateItems(recs))
  }

  lemma LoadedOrder(recs: seq<StateRecord>)
    ensures FromItems(StateItems(recs)).keys == FirstOccurrences(Contexts(recs))
    ensures forall i :: 0 <= i < |recs| && (forall j :: i < j < |recs| ==> recs[j].state != recs[i].state) ==>
      FromItems(StateItems(recs)).entries[recs[i].state] == MarkovChainState.FromJson(recs[i])
  {
    var items := StateItems(recs);
    assert Firsts(items) == Contexts(recs);
    FromItemsKeys(items);
    forall i | 0 <= i < |recs| && (forall j :: i < j < |recs| ==> recs[j].state != recs[i].state)
      ensures FromItems(items).entries[recs[i].state] == MarkovChainState.FromJson(recs[i])
    {
      assert LastOfKey(items, i);
      FromItemsLast(items, i);
    }
  }

  lemma LoadedFrom(recs: seq<StateRecord>)
    ensures forall k :: k in FromItems(StateItems(recs)).entries ==>
      FromItems(StateItems(recs)).entries[k].state == k && FromItems(StateItems(recs)).entries[k].ToJson() in recs
  {
    var items := StateItems(recs);
    var d := FromItems(items);
    forall k | k in d.entries ensures d.entries[k].state == k && d.entries[k].ToJson() in recs {
      var i :| 0 <= i < |items| && items[i] == (k, d.entries[k]);
      assert d.entries[k].ToJson() == recs[i];
    }
  }

  /** The contexts of the state records, in order. */
  function Contexts(recs: seq<StateRecord>): (r: seq<string>)
    ensures |r| == |recs|
    ensures forall i :: 0 <= i < |recs| ==> r[i] == recs[i].state
  {
    seq(|recs|, i requires 0 <= i < |recs| => recs[i].state)
  }

  /** The pairs that `from_json`'s dict comprehension is built from. */
  function StateItems(recs: seq<StateRecord>): (r: seq<(string, MarkovChainState)>)
    ensures |r| == |recs|
    ensures forall i :: 0 <= i < |recs| ==> r[i] == (recs[i].state, MarkovChainState.FromJson(recs[i]))
  {
    seq(|recs|, i requires 0 <= i < |recs| => (recs[i].state, MarkovChainState.FromJson(recs[i])))
  }

  /** A chain survives `to_json` followed by `from_json` unchanged: the same contexts in the
      same order, with the same transitions and probabilities. */
  lemma ChainRoundTrip(c: MarkovChain)
    requires c.Valid()
    ensures MarkovChain.FromJson(c.ToJson()) == c
  {
    var items := StateItems(c.ToJson().states);
    assert items == c.states.Items();
    FromItemsOfItems(c.states);
  }

  /** A record whose contexts are distinct survives `from_json` followed by `to_json` unchanged. */
  lemma ChainRecordRoundTrip(rec: ChainRecord)
    requires Distinct(Contexts(rec.states))
    ensures MarkovChain.FromJson(rec).ToJson() == rec
  {
    var items := StateItems(rec.states);
    assert Firsts(items) == Contexts(rec.states);
    ItemsOfFromItems(items);
    RecordsOfItems(rec, FromItems(items));
  }

  lemma RecordsOfItems(rec: ChainRecord, d: Dict<string, MarkovChainState>)
    requires d.Valid() && d.Items() == StateItems(rec.states)
    ensures MarkovChain(d, rec.start, rec.end, rec.seqLen).ToJson() == rec
  {
    var out := MarkovChain(d, rec.start, rec.end, rec.seqLen).ToJson();
    forall i | 0 <= i < |rec.states| ensures out.states[i] == rec.states[i] {
      assert d.Items()[i] == StateItems(rec.states)[i];
    }
  }
}
