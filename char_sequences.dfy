/** `get_char_sequences`: every sequence of up to `seq_len` characters, built by extending
    each shorter sequence by every character. */
module CharSequences {
  import opened Basics

  function Pow(b: nat, e: nat): nat
  {
    if e == 0 then 1 else b * Pow(b, e - 1)
  }

  /** `[s + c for c in cs]` */
  function Appended(s: string, cs: seq<string>): (r: seq<string>)
    ensures |r| == |cs|
    ensures forall j :: 0 <= j < |cs| ==> r[j] == s + cs[j]
  {
    seq(|cs|, j requires 0 <= j < |cs| => s + cs[j])
  }

  /** `[s + c for s in out for c in cs]` */
  function Extended(out: seq<string>, cs: seq<string>): seq<string>
  {
    if out == [] then [] else Appended(out[0], cs) + Extended(out[1..], cs)
  }

  /** `get_char_sequences(seq_len, characters)` */
  function CharSequences(seqLen: int, cs: seq<string>): (r: Result<seq<string>>)
    ensures r.Err? <==> seqLen < 1
    ensures r.Err? ==> r.error == NonPositiveSeqLen
    ensures seqLen == 1 ==> r == Ok(cs)
    decreases seqLen
  {
    if seqLen < 1 then Err(NonPositiveSeqLen)
    else if seqLen == 1 then Ok(cs)
    else
      var out := CharSequences(seqLen - 1, cs).value;
      Ok(out + Extended(out, cs))
  }

  lemma {:induction false} ExtendedLength(out: seq<string>, cs: seq<string>)
    ensures |Extended(out, cs)| == |out| * |cs|
  {
    if out != [] {
      ExtendedLength(out[1..], cs);
      assert |out| * |cs| == |cs| + (|out| - 1) * |cs|;
    }
  }

  /** Extending strings of length lo..hi by single characters gives strings of length lo+1..hi+1. */
  lemma {:induction false} ExtendedLengths(out: seq<string>, cs: seq<string>, lo: nat, hi: nat)
    requires forall s :: s in out ==> lo <= |s| <= hi
    requires forall c :: c in cs ==> |c| == 1
    ensures forall s :: s in Extended(out, cs) ==> lo + 1 <= |s| <= hi + 1
  {
    if out != [] {
      ExtendedLengths(out[1..], cs, lo, hi);
      assert out[0] in out;
      forall s | s in Appended(out[0], cs) ensures lo + 1 <= |s| <= hi + 1 {
        var j :| 0 <= j < |cs| && Appended(out[0], cs)[j] == s;
        assert cs[j] in cs;
      }
    }
  }

  /** The sequences for a smaller length come first in the sequences for a larger one. */
  lemma {:induction false} CharSequencesPrefix(m: int, n: int, cs: seq<string>)
    requires 1 <= m <= n
    ensures CharSequences(m, cs).value <= CharSequences(n, cs).value
    decreases n
  {
    if m < n {
      CharSequencesPrefix(m, n - 1, cs);
    }
  }

  /** There are |cs|·(|cs|+1)^(n-1) sequences, duplicates included. */
  lemma {:induction false} CharSequencesCount(n: int, cs: seq<string>)
    requires n >= 1
    ensures |CharSequences(n, cs).value| == |cs| * Pow(|cs| + 1, n - 1)
    decreases n
  {
    if n > 1 {
      var out := CharSequences(n - 1, cs).value;
      CharSequencesCount(n - 1, cs);
      ExtendedLength(out, cs);
      var a, b, p := |out|, |cs|, Pow(|cs| + 1, n - 2);
      assert |CharSequences(n, cs).value| == a + a * b;
      assert Pow(b + 1, n - 1) == (b + 1) * p;
      Regroup(a, b, p);
    }
  }

  lemma Regroup(a: nat, b: nat, p: nat)
    requires a == b * p
    ensures a + a * b == b * ((b + 1) * p)
  {
    calc {
      a + a * b;
      a * (b + 1);
      (b * p) * (b + 1);
      b * (p * (b + 1));
      b * ((b + 1) * p);
    }
  }

  /** Given single characters, every sequence has between 1 and n characters. */
  lemma {:induction false} CharSequencesLengths(n: int, cs: seq<string>)
    requires n >= 1
    requires forall c :: c in cs ==> |c| == 1
    ensures forall s :: s in CharSequences(n, cs).value ==> 1 <= |s| <= n
    decreases n
  {
    if n > 1 {
      var out := CharSequences(n - 1, cs).value;
      CharSequencesLengths(n - 1, cs);
      ExtendedLengths(out, cs, 1, n - 1);
    }
  }

  /** From length 3 on the result repeats itself: cs[0]+cs[0] comes once from the
      length-2 step and again from extending cs[0] in the length-3 step. */
  lemma {:induction false} CharSequencesDuplicate(n: int, cs: seq<string>)
    requires n >= 3 && |cs| >= 1
    ensures var r := CharSequences(n, cs).value;
      |cs| < |cs| * (|cs| + 1) < |r| && r[|cs|] == r[|cs| * (|cs| + 1)]
  {
    var two := CharSequences(2, cs).value;
    var three := CharSequences(3, cs).value;
    ExtendedLength(cs, cs);
    assert two == cs + Extended(cs, cs);
    assert two[|cs|] == cs[0] + cs[0];
    assert |two| == |cs| * (|cs| + 1);
    ExtendedLength(two, cs);
    assert three == two + Extended(two, cs);
    assert three[|two|] == two[0] + cs[0];
    assert |three| == |two| + |two| * |cs|;
    assert |two| * |cs| >= 1 by {
      assert |two| >= 1 && |cs| >= 1;
    }
    CharSequencesPrefix(3, n, cs);
  }
}
