/** Sampling the first output file of a compaction for a compression dictionary while it is
    being written, one key and one value at a time. */
module DictionarySampling {
  import opened Arithmetic

  type Byte = bv8

  datatype Entry = Entry(key: seq<Byte>, value: seq<Byte>)

  const SAMPLE_LENGTH: nat := 64   // 1 << kSampleLenShift

  // ----- Offsets of the samples

  ghost predicate Apart(offsets: seq<nat>) {
    forall i, j :: 0 <= i < j < |offsets| ==> offsets[i] + SAMPLE_LENGTH <= offsets[j]
  }

  ghost predicate IsDrawn(draws: seq<nat>, o: nat) {
    exists i :: 0 <= i < |draws| && o == draws[i] * SAMPLE_LENGTH
  }

  lemma DrawOne(draws: seq<nat>, d: nat, o: nat)
    ensures IsDrawn(draws + [d], o) <==> IsDrawn(draws, o) || o == d * SAMPLE_LENGTH
  {
    var more := draws + [d];
    assert more[|draws|] == d;
    assert forall i :: 0 <= i < |draws| ==> more[i] == draws[i];
  }

  /** The random draws, scaled to whole samples, in an ordered set. */
  method SampleOffsets(draws: seq<nat>) returns (offsets: seq<nat>)
    ensures Apart(offsets)
    ensures forall o :: o in offsets <==> IsDrawn(draws, o)
  {
    hide IsDrawn;
    offsets := [];
    assert forall o :: !IsDrawn([], o) by { NothingDrawn(); }
    for i := 0 to |draws|
      invariant Apart(offsets) && forall o :: o in offsets ==> o % SAMPLE_LENGTH == 0
      invariant forall o :: o in offsets <==> IsDrawn(draws[..i], o)
    {
      var o := draws[i] * SAMPLE_LENGTH;
      var n := 0;
      while n < |offsets| && offsets[n] < o
        invariant n <= |offsets| && forall m :: 0 <= m < n ==> offsets[m] < o
      {
        n := n + 1;
      }
      assert draws[..i + 1] == draws[..i] + [draws[i]];
      forall x: nat
        ensures IsDrawn(draws[..i + 1], x) <==> IsDrawn(draws[..i], x) || x == o
      {
        DrawOne(draws[..i], draws[i], x);
      }
      if n == |offsets| || offsets[n] != o {
        InsertOffset(offsets, n, draws[i]);
        offsets := offsets[..n] + [o] + offsets[n..];
      }
    }
    assert draws[..|draws|] == draws;
  }

  lemma NothingDrawn()
    ensures forall o :: !IsDrawn([], o)
  {
  }

  lemma InsertOffset(offsets: seq<nat>, n: nat, d: nat)
    requires Apart(offsets) && n <= |offsets| && forall o :: o in offsets ==> o % SAMPLE_LENGTH == 0
    requires forall m :: 0 <= m < n ==> offsets[m] < d * SAMPLE_LENGTH
    requires n < |offsets| ==> d * SAMPLE_LENGTH < offsets[n]
    ensures Apart(offsets[..n] + [d * SAMPLE_LENGTH] + offsets[n..])
    ensures forall o :: o in offsets[..n] + [d * SAMPLE_LENGTH] + offsets[n..] <==>
            o in offsets || o == d * SAMPLE_LENGTH
  {
    var o := d * SAMPLE_LENGTH;
    forall m | 0 <= m < n
      ensures offsets[m] + SAMPLE_LENGTH <= o
    {
      assert offsets[m] in offsets;
    }
    if n < |offsets| {
      assert offsets[n] in offsets;
      assert o + SAMPLE_LENGTH <= offsets[n];
    }
    InsertApart(offsets, n, o);
  }

  lemma InsertApart(offsets: seq<nat>, n: nat, o: nat)
    requires Apart(offsets) && n <= |offsets|
    requires forall m :: 0 <= m < n ==> offsets[m] + SAMPLE_LENGTH <= o
    requires n < |offsets| ==> o + SAMPLE_LENGTH <= offsets[n]
    ensures Apart(offsets[..n] + [o] + offsets[n..])
    ensures forall x :: x in offsets[..n] + [o] + offsets[n..] <==> x in offsets || x == o
  {
    assert offsets == offsets[..n] + offsets[n..];
    assert forall x :: x in offsets <==> x in offsets[..n] || x in offsets[n..];
  }

  // ----- What the dictionary should hold

  /** The part of the sample at `offset` that the data reaches. */
  function Clip(data: seq<Byte>, offset: nat): seq<Byte> {
    data[Min(offset, |data|)..Min(offset + SAMPLE_LENGTH, |data|)]
  }

  /** All samples, cut out of the whole data. */
  function Samples(data: seq<Byte>, offsets: seq<nat>): seq<Byte> {
    if offsets == [] then []
    else Samples(data, offsets[..|offsets| - 1]) + Clip(data, offsets[|offsets| - 1])
  }

  function Written(entries: seq<Entry>): seq<Byte> {
    if entries == [] then []
    else Written(entries[..|entries| - 1]) + entries[|entries| - 1].key + entries[|entries| - 1].value
  }

  // ----- Streaming

  /** Data that ends before a sample starts contributes nothing to it. */
  lemma {:induction false} SamplesBeyond(data: seq<Byte>, offsets: seq<nat>, n: nat)
    requires n <= |offsets| && forall i :: n <= i < |offsets| ==> |data| <= offsets[i]
    ensures Samples(data, offsets) == Samples(data, offsets[..n])
    decreases |offsets|
  {
    if n == |offsets| {
      assert offsets[..n] == offsets;
    } else {
      var last := |offsets| - 1;
      SamplesBeyond(data, offsets[..last], n);
      assert offsets[..last][..n] == offsets[..n];
    }
  }

  /** Data added after the end of a sample does not change it. */
  lemma {:induction false} SamplesDone(data: seq<Byte>, more: seq<Byte>, offsets: seq<nat>)
    requires forall i :: 0 <= i < |offsets| ==> offsets[i] + SAMPLE_LENGTH <= |data|
    ensures Samples(data + more, offsets) == Samples(data, offsets)
  {
    if offsets != [] {
      SamplesDone(data, more, offsets[..|offsets| - 1]);
      assert Clip(data + more, offsets[|offsets| - 1]) == Clip(data, offsets[|offsets| - 1]);
    }
  }

  /** The samples before `next` are complete; the one at `next` is not. */
  ghost predicate Current(length: nat, offsets: seq<nat>, next: nat) {
    && next <= |offsets|
    && (forall i :: 0 <= i < next ==> offsets[i] + SAMPLE_LENGTH <= length)
    && (next < |offsets| ==> length < offsets[next] + SAMPLE_LENGTH)
  }

  lemma OneMoreSample(data: seq<Byte>, offsets: seq<nat>, n: nat)
    requires n < |offsets|
    ensures Samples(data, offsets[..n + 1]) == Samples(data, offsets[..n]) + Clip(data, offsets[n])
  {
    assert offsets[..n + 1][..n] == offsets[..n];
  }

  /** The part of the sample at `next`, if there is one. */
  function Partial(data: seq<Byte>, offsets: seq<nat>, next: nat): seq<Byte> {
    if next < |offsets| then Clip(data, offsets[next]) else []
  }

  /** What is collected of `data` is what the samples before `next` and the part of the one at
      `next` give. */
  lemma CollectedSoFar(data: seq<Byte>, offsets: seq<nat>, next: nat)
    requires Apart(offsets) && Current(|data|, offsets, next)
    ensures Samples(data, offsets) == Samples(data, offsets[..next]) + Partial(data, offsets, next)
  {
    hide Samples, Clip;
    if next < |offsets| {
      SamplesBeyond(data, offsets, next + 1);
      OneMoreSample(data, offsets, next);
    } else {
      assert offsets[..next] == offsets;
    }
  }

  lemma ClipGrows(before: seq<Byte>, element: seq<Byte>, offset: nat, from: nat, end: nat)
    requires |before| < offset + SAMPLE_LENGTH && offset < |before| + |element|
    requires from == if offset <= |before| then 0 else offset - |before|
    requires end == Min(offset + SAMPLE_LENGTH, |before| + |element|) - |before|
    ensures from <= end <= |element| && Clip(before + element, offset) == Clip(before, offset) + element[from..end]
  {
    var after := before + element;
    if offset <= |before| {
      assert after[offset..Min(offset + SAMPLE_LENGTH, |after|)] == before[offset..] + element[..end];
    } else {
      assert after[offset..Min(offset + SAMPLE_LENGTH, |after|)] == element[from..end];
      assert Clip(before, offset) == [];
    }
  }

  /** One key or one value. */
  method SampleElement(ghost before: seq<Byte>, begin: nat, element: seq<Byte>, offsets: seq<nat>,
      collected: seq<Byte>, next: nat)
    returns (collected': seq<Byte>, next': nat)
    requires Apart(offsets) && begin == |before| && Current(begin, offsets, next) &&
             collected == Samples(before, offsets)
    ensures Current(begin + |element|, offsets, next') && collected' == Samples(before + element, offsets)
  {
    hide Samples, Clip;
    ghost var after := before + element;
    var end := begin + |element|;
    collected', next' := collected, next;
    SamplesDone(before, element, offsets[..next]);
    CollectedSoFar(before, offsets, next);
    while next' < |offsets| && offsets[next'] < end
      invariant next <= next' <= |offsets| && (next' < |offsets| ==> begin < offsets[next'] + SAMPLE_LENGTH)
      invariant forall i :: 0 <= i < next' ==> offsets[i] + SAMPLE_LENGTH <= end
      invariant collected' == Samples(after, offsets[..next']) + Partial(before, offsets, next')
      decreases |offsets| - next'
    {
      var sampleEnd := offsets[next'] + SAMPLE_LENGTH;
      assert begin < sampleEnd;
      var from := if offsets[next'] <= begin then 0 else offsets[next'] - begin;
      var length := if sampleEnd <= end then sampleEnd - (begin + from) else end - (begin + from);
      ClipGrows(before, element, offsets[next'], from, from + length);
      collected' := collected' + element[from..from + length];
      OneMoreSample(after, offsets, next');
      if sampleEnd > end {
        CollectedSoFar(after, offsets, next');
        return;
      }
      assert next' + 1 < |offsets| ==> begin < offsets[next'] + SAMPLE_LENGTH <= offsets[next' + 1];
      next' := next' + 1;
      NotStarted(before, offsets, next');
    }
    CollectedSoFar(after, offsets, next');
    NotStarted(before, offsets, next');
    NotStarted(after, offsets, next');
  }

  lemma NotStarted(data: seq<Byte>, offsets: seq<nat>, next: nat)
    ensures (next < |offsets| ==> |data| <= offsets[next]) ==> Partial(data, offsets, next) == []
  {
  }

  /** However the file is cut into keys and values, empty ones included, the bytes collected are
      the samples cut out of the whole file, in order. */
  method SampleFile(entries: seq<Entry>, offsets: seq<nat>) returns (collected: seq<Byte>)
    requires Apart(offsets)
    ensures collected == Samples(Written(entries), offsets)
  {
    var next, begin := 0, 0;
    collected := [];
    SamplesBeyond([], offsets, 0);
    for e := 0 to |entries|
      invariant begin == |Written(entries[..e])| && Current(begin, offsets, next)
      invariant collected == Samples(Written(entries[..e]), offsets)
    {
      assert entries[..e + 1][..e] == entries[..e];
      ghost var written := Written(entries[..e]);
      collected, next := SampleElement(written, begin, entries[e].key, offsets, collected, next);
      begin := begin + |entries[e].key|;
      collected, next := SampleElement(written + entries[e].key, begin, entries[e].value, offsets, collected, next);
      begin := begin + |entries[e].value|;
    }
    assert entries[..|entries|] == entries;
  }
}
