/** The trainer: `MarkovChainBuilderState` (one context's counts) and `MarkovChainBuilder`
    (all contexts, updated in place as strings are processed). Each method is proved to
    leave the builder's counts equal to the `Counts` function of its old counts. */
module Builder {
  import opened Basics
  import opened Dicts
  import opened Chain
  import opened Counts

  /** `{"state": …, "transitions": {…}}` */
  datatype BuilderStateRecord = BuilderStateRecord(state: string, transitions: Counter)

  /** `{"start": …, "end": …, "seq_len": …, "nested_seq": …, "states": […]}` */
  datatype BuilderRecord = BuilderRecord(start: string, end: string, seqLen: int, nestedSeq: bool, states: seq<BuilderStateRecord>)

  /** The constructor's assertions, in their order. */
  function ConfigCheck(start: string, end: string, seqLen: int): (r: Outcome)
    ensures r.Pass? <==> |start| == 1 && |end| == 1 && start != end && seqLen > 0
    ensures |start| != 1 ==> r == Fail(StartNotOneChar)
    ensures |start| == 1 && |end| != 1 ==> r == Fail(EndNotOneChar)
  {
    if |start| != 1 then Fail(StartNotOneChar)
    else if |end| != 1 then Fail(EndNotOneChar)
    else if start == end then Fail(SameSentinels)
    else if seqLen <= 0 then Fail(NonPositiveSeqLen)
    else Pass
  }

  /** `[s.to_json() for s in self.states.values()]`, each state abstracted to its counts. */
  function StateRecords(t: Table): (r: seq<BuilderStateRecord>)
    requires t.Valid()
    ensures |r| == |t.keys|
    ensures forall i :: 0 <= i < |r| ==> r[i] == BuilderStateRecord(t.keys[i], t.entries[t.keys[i]])
  {
    seq(|t.keys|, i requires 0 <= i < |t.keys| => BuilderStateRecord(t.keys[i], t.entries[t.keys[i]]))
  }

  function RecordItems(recs: seq<BuilderStateRecord>): (r: seq<(string, Counter)>)
    ensures |r| == |recs|
    ensures forall i :: 0 <= i < |recs| ==> r[i] == (recs[i].state, recs[i].transitions)
  {
    seq(|recs|, i requires 0 <= i < |recs| => (recs[i].state, recs[i].transitions))
  }

  /** `{s['state']: MarkovChainBuilderState.from_json(s) for s in obj['states']}`, each
      state abstracted to its counts: a later record for a context replaces an earlier one. */
  function RecordsTable(recs: seq<BuilderStateRecord>): (t: Table)
    ensures t.Valid() && t.keys == FirstOccurrences(RecordNames(recs))
    ensures forall i :: 0 <= i < |recs| ==> recs[i].state in t.entries
    ensures forall i :: 0 <= i < |recs| && (forall j :: i < j < |recs| ==> recs[j].state != recs[i].state) ==>
      t.entries[recs[i].state] == recs[i].transitions
    ensures forall k :: k in t.entries ==> (k, t.entries[k]) in RecordItems(recs)
  {
    var items := RecordItems(recs);
    assert Firsts(items) == RecordNames(recs);
    FromItemsKeys(items);
    assert forall i :: 0 <= i < |recs| && LastOfKey(items, i) ==> FromItems(items).entries[items[i].0] == items[i].1 by {
      forall i | 0 <= i < |recs| && LastOfKey(items, i) ensures FromItems(items).entries[items[i].0] == items[i].1 {
        FromItemsLast(items, i);
      }
    }
    FromItems(items)
  }

  /** Every transitions object of the records is a dict. */
  ghost predicate RecordsValid(recs: seq<BuilderStateRecord>)
  {
    forall i :: 0 <= i < |recs| ==> recs[i].transitions.Valid()
  }

  ghost function RecordNames(recs: seq<BuilderStateRecord>): seq<string>
  {
    seq(|recs|, i requires 0 <= i < |recs| => recs[i].state)
  }

  lemma RecordsTableValid(recs: seq<BuilderStateRecord>)
    requires RecordsValid(recs)
    ensures TableValid(RecordsTable(recs))
  {
    var t := RecordsTable(recs);
    forall k | k in t.entries ensures t.entries[k].Valid() {
      var i :| 0 <= i < |recs| && RecordItems(recs)[i] == (k, t.entries[k]);
    }
  }

  /** A builder's states survive `to_json` followed by `from_json`: the same contexts in
      the same order with the same counts. */
  lemma TableRoundTrip(t: Table)
    requires t.Valid()
    ensures RecordsTable(StateRecords(t)) == t
  {
    assert RecordItems(StateRecords(t)) == t.Items();
    FromItemsOfItems(t);
  }

  /** Records with distinct contexts survive `from_json` followed by `to_json`. */
  lemma RecordsRoundTrip(recs: seq<BuilderStateRecord>)
    requires Distinct(RecordNames(recs))
    ensures StateRecords(RecordsTable(recs)) == recs
  {
    var items := RecordItems(recs);
    assert Firsts(items) == RecordNames(recs);
    ItemsOfFromItems(items);
    var t := RecordsTable(recs);
    forall i | 0 <= i < |recs| ensures StateRecords(t)[i] == recs[i] {
      assert t.Items()[i] == items[i];
    }
  }

  /** One context and its transition counts. */
  class MarkovChainBuilderState {
    const state: string
    var transitions: Counter

    constructor(state: string)
      ensures this.state == state && transitions == Empty()
    {
      this.state := state;
      transitions := Empty();
    }

    /** `increment_transision` */
    method IncrementTransition(c: char)
      modifies this
      ensures transitions == Incremented(old(transitions), c)
    {
      if c !in transitions.entries {
        transitions := transitions.Put(c, 1);
      } else {
        transitions := transitions.Put(c, transitions.entries[c] + 1);
      }
    }

    function ToJson(): (r: BuilderStateRecord)
      reads this
      ensures r.state == state && r.transitions == transitions
    {
      BuilderStateRecord(state, transitions)
    }

    static method FromJson(rec: BuilderStateRecord) returns (s: MarkovChainBuilderState)
      ensures fresh(s) && s.state == rec.state && s.transitions == rec.transitions
      ensures s.ToJson() == rec
    {
      s := new MarkovChainBuilderState(rec.state);
      s.transitions := rec.transitions;
    }

    /** `MarkovChainBuilderState.from_json(self.to_json())`: a new state with this
        state's context and counts. */
    method Reloaded() returns (s: MarkovChainBuilderState)
      ensures fresh(s) && s.state == state && s.transitions == transitions
    {
      s := FromJson(ToJson());
    }
  }

  /** The trainer: counts which character follows each context of up to `seqLen` characters.
      Each state's counts are held in `states` by value. */
  class MarkovChainBuilder {
    const start: char
    const end: char
    const seqLen: nat
    const nestedSeq: bool
    var states: Table

    ghost predicate Valid()
      reads this
    {
      start != end && seqLen >= 1 && TableValid(states)
    }

    function Settings(): Config
    {
      Config(start, end, seqLen, nestedSeq)
    }

    constructor(start: char, end: char, seqLen: nat, nestedSeq: bool)
      requires start != end && seqLen >= 1
      ensures Valid() && states == Empty()
      ensures Settings() == Config(start, end, seqLen, nestedSeq)
    {
      this.start := start;
      this.end := end;
      this.seqLen := seqLen;
      this.nestedSeq := nestedSeq;
      states := Empty();
    }

    /** `MarkovChainBuilder(start, end, seq_len, nested_seq)` with the constructor's assertions. */
    static method Create(start: string, end: string, seqLen: int, nestedSeq: bool) returns (r: Result<MarkovChainBuilder>)
      ensures r.Err? <==> ConfigCheck(start, end, seqLen).Fail?
      ensures r.Err? ==> r.error == ConfigCheck(start, end, seqLen).error
      ensures r.Ok? ==> fresh(r.value) && r.value.Valid() && r.value.states == Empty()
      ensures r.Ok? ==> [r.value.start] == start && [r.value.end] == end
      ensures r.Ok? ==> r.value.seqLen == seqLen && r.value.nestedSeq == nestedSeq
    {
      var check := ConfigCheck(start, end, seqLen);
      if check.Fail? {
        return Err(check.error);
      }
      var b := new MarkovChainBuilder(start[0], end[0], seqLen, nestedSeq);
      r := Ok(b);
    }

    /** `get_state`: the counts of `key`, created empty when missing. */
    method GetState(key: string) returns (s: Counter)
      modifies this
      ensures states == Touch(old(states), key)
      ensures key in states.entries && s == states.entries[key]
    {
      if key !in states.entries {
        states := states.Put(key, Empty());
      }
      s := states.entries[key];
    }

    /** `self.get_state(key).increment_transision(c)` */
    method Record(key: string, c: char)
      modifies this
      ensures states == Inc(old(states), (key, c))
    {
      var s := GetState(key);
      var obj := MarkovChainBuilderState.FromJson(BuilderStateRecord(key, s));
      obj.IncrementTransition(c);
      states := states.Put(key, obj.transitions);
    }

    /** `for j in range(hi, 0, -1): self.get_state(key[-j:]).increment_transision(c)` */
    method RecordSuffixes(key: string, c: char, hi: int)
      modifies this
      ensures states == ApplyAll(old(states), Suffixes(key, c, hi, 0))
    {
      var j := if hi > 0 then hi else 0;
      while j > 0
        invariant 0 <= j && (hi >= 0 ==> j <= hi)
        invariant states == ApplyAll(old(states), Suffixes(key, c, hi, j))
        decreases j
      {
        Record(Tail(key, j), c);
        ApplyAllSuffixStep(old(states), key, c, hi, j);
        j := j - 1;
      }
    }

    /** One iteration of either loop of `process_string`: the character `t` in the context
        `state`, and with `nested_seq` again in its suffixes from length `hi` down. */
    method Step(state: string, t: char, hi: int)
      modifies this
      ensures states == ApplyAll(old(states), [(state, t)] + (if nestedSeq then Suffixes(state, t, hi, 0) else []))
    {
      ghost var rest := if nestedSeq then Suffixes(state, t, hi, 0) else [];
      ApplyAllCons(states, (state, t), rest);
      Record(state, t);
      if nestedSeq {
        RecordSuffixes(state, t, hi);
      } else {
        assert ApplyAll(states, rest) == states;
      }
    }

    /** The counts hold `m0` plus every increment `process_string(s)` performs before
        reading position i. */
    ghost predicate Reached(m0: Table, s: string, i: nat)
      reads this
      requires 1 <= i <= |s|
    {
      states == ApplyAll(m0, Prefix(Settings(), s, i))
    }

    /** One iteration of either loop of `process_string`: the character `s[i]` counted in
        its context `state` (with `nested_seq`, also in the suffixes from length `hi` down),
        then the context rolled forward. */
    method Advance(s: string, i: nat, state: string, hi: int, ghost m0: Table) returns (next: string)
      requires 1 <= i < |s| && 1 <= seqLen && hi == Min(i, seqLen) - 1
      requires state == Window(s, i, seqLen)
      requires Reached(m0, s, i)
      modifies this
      ensures next == Window(s, i + 1, seqLen)
      ensures Reached(m0, s, i + 1)
    {
      var t := s[i];
      PrefixStep(Settings(), m0, s, i, hi);
      Step(state, t, hi);
      next := Tail(state + [t], seqLen);
      WindowSlides(s, i, seqLen);
    }

    /** The first loop of `process_string`: each character at positions 1 .. min(seq_len, len(s)) - 1,
        in the context of everything read before it. Returns the context after the loop. */
    method GrowContexts(s: string, ghost m0: Table) returns (state: string)
      requires 1 <= |s| && 1 <= seqLen
      requires Reached(m0, s, 1)
      modifies this
      ensures state == Window(s, Min(seqLen, |s|), seqLen)
      ensures Reached(m0, s, Min(seqLen, |s|))
    {
      state := [s[0]];
      var i := 1;
      while i < Min(seqLen, |s|)
        invariant 1 <= i <= Min(seqLen, |s|)
        invariant state == Window(s, i, seqLen)
        invariant Reached(m0, s, i)
      {
        state := Advance(s, i, state, i - 1, m0);
        i := i + 1;
      }
    }

    /** The second loop of `process_string`: each character from position `seq_len` on, in
        the context of the `seq_len` characters before it. Returns the last context. */
    method SlideContexts(s: string, state0: string, ghost m0: Table) returns (state: string)
      requires 1 <= |s| && 1 <= seqLen
      requires state0 == Window(s, Min(seqLen, |s|), seqLen)
      requires Reached(m0, s, Min(seqLen, |s|))
      modifies this
      ensures state == Window(s, |s|, seqLen)
      ensures Reached(m0, s, |s|)
    {
      state := state0;
      var i := Min(seqLen, |s|);
      while i < |s|
        invariant Min(seqLen, |s|) <= i <= |s|
        invariant state == Window(s, i, seqLen)
        invariant Reached(m0, s, i)
      {
        assert Min(i, seqLen) == seqLen;
        state := Advance(s, i, state, seqLen - 1, m0);
        i := i + 1;
      }
    }

    /** `process_string`: the sentinel checks, the start context on the first character,
        the growing contexts up to `seq_len` characters, the full-width contexts after them,
        and the end sentinel on the last context; with `nested_seq` each increment is
        repeated on the context's shorter suffixes. */
    method ProcessString(s: string) returns (r: Outcome)
      requires Valid()
      modifies this
      ensures Valid()
      ensures r == IngestOutcome(Settings(), s)
      ensures states == Ingested(Settings(), old(states), s)
    {
      if start in s {
        return Fail(StartInString);
      }
      if end in s {
        return Fail(EndInString);
      }
      ghost var m0 := states;
      var first := GetState([start]);
      if s == [] {
        return Fail(EmptyString);
      }
      states := states.Put([start], Incremented(first, s[0]));
      IncTouched(m0, ([start], s[0]));
      PrefixStart(Settings(), m0, s);
      var state := GrowContexts(s, m0);
      state := SlideContexts(s, state, m0);
      ghost var read := states;
      assert read == ApplyAll(m0, Prefix(Settings(), s, |s|));
      Step(state, end, seqLen - 1);
      PrefixEnd(Settings(), m0, s);
      assert states == ApplyAll(m0, Increments(Settings(), s));
      ApplyAllValid(m0, Increments(Settings(), s));
      r := Pass;
    }

    /** `process_strings`: the strings in order; the first failure ends it, leaving the
        counts of the strings before it (and of the failing string's own partial work). */
    method ProcessStrings(ss: seq<string>) returns (r: Outcome)
      requires Valid()
      modifies this
      ensures Valid()
      ensures (states, r) == IngestedAll(Settings(), old(states), ss)
    {
      var i := 0;
      while i < |ss|
        invariant Valid()
        invariant i <= |ss|
        invariant (states, Pass) == IngestedAll(Settings(), old(states), ss[..i])
      {
        assert ss[..i + 1][..i] == ss[..i];
        r := ProcessString(ss[i]);
        if r.Fail? {
          IngestedAllStops(Settings(), old(states), ss, i + 1);
          return;
        }
        i := i + 1;
      }
      assert ss[..i] == ss;
      r := Pass;
    }

    /** `compile`: every state compiled, in the builder's order; it fails when some context
        has no transitions. */
    function Compile(): (r: Result<MarkovChain>)
      reads this
      requires Valid()
      ensures r.Err? <==> exists k :: k in states.entries && states.entries[k].keys == []
      ensures r.Ok? ==> r.value.Valid() && r.value.states.keys == states.keys
      ensures r.Ok? ==> r.value.start == [start] && r.value.end == [end] && r.value.seqLen == seqLen
      ensures r.Ok? ==> forall k :: k in states.entries ==>
        Ok(r.value.states.entries[k]) == CompileState(k, states.entries[k])
    {
      match CompileTable(states)
      case Err(e) => Err(e)
      case Ok(d) => Ok(MarkovChain(d, [start], [end], seqLen))
    }

    /** `to_json` */
    function ToJson(): (r: BuilderRecord)
      reads this
      requires Valid()
      ensures r.start == [start] && r.end == [end] && r.seqLen == seqLen && r.nestedSeq == nestedSeq
      ensures RecordsTable(r.states) == states
    {
      TableRoundTrip(states);
      BuilderRecord([start], [end], seqLen, nestedSeq, StateRecords(states))
    }

    /** `from_json`: the constructor's checks on the record, then the states rebuilt from
        their records, a later record for a context replacing an earlier one. */
    static method FromJson(rec: BuilderRecord) returns (r: Result<MarkovChainBuilder>)
      requires RecordsValid(rec.states)
      ensures r.Err? <==> ConfigCheck(rec.start, rec.end, rec.seqLen).Fail?
      ensures r.Err? ==> r.error == ConfigCheck(rec.start, rec.end, rec.seqLen).error
      ensures r.Ok? ==> fresh(r.value) && r.value.Valid() && r.value.states == RecordsTable(rec.states)
      ensures r.Ok? ==> [r.value.start] == rec.start && [r.value.end] == rec.end
      ensures r.Ok? ==> r.value.seqLen == rec.seqLen && r.value.nestedSeq == rec.nestedSeq
    {
      r := Create(rec.start, rec.end, rec.seqLen, rec.nestedSeq);
      if r.Ok? {
        RecordsTableValid(rec.states);
        r.value.states := RecordsTable(rec.states);
      }
    }
  }

  /** After a failure, later strings are not processed: the result of the whole list is
      the result of the prefix that failed. */
  lemma {:induction false} IngestedAllStops(cfg: Config, t: Table, ss: seq<string>, j: nat)
    requires j <= |ss| && IngestedAll(cfg, t, ss[..j]).1.Fail?
    ensures IngestedAll(cfg, t, ss) == IngestedAll(cfg, t, ss[..j])
    decreases |ss|
  {
    if j < |ss| {
      var init := ss[..|ss| - 1];
      assert init[..j] == ss[..j];
      IngestedAllStops(cfg, t, init, j);
    } else {
      assert ss[..j] == ss;
    }
  }
}
