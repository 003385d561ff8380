/** Multi-version records of the store, and what a reader sees of them.

    A reader at sequence number `s` looks for the newest record of a user key whose sequence
    number is at most `s`.  User keys are modelled as integers: the code only ever compares them
    through a total order. */
module Records {
  import opened Options

  type UserKey = int
  type Sequence = nat
  type Value = seq<char>

  // kMaxSequenceNumber: also the position from which the tip of the database is read.
  const MAX_SEQUENCE: nat := 0xFF_FFFF_FFFF_FFFF

  datatype Kind = Put | Deletion | SingleDeletion

  datatype Record = Record(key: UserKey, seqno: Sequence, kind: Kind, value: Value)

  /** Order of a sorted stream: user key ascending, newer versions first. */
  predicate Before(a: Record, b: Record) {
    a.key < b.key || (a.key == b.key && a.seqno > b.seqno)
  }

  predicate StrictlySorted(rs: seq<Record>) {
    forall i, j {:trigger Before(rs[i], rs[j])} :: 0 <= i < j < |rs| ==> Before(rs[i], rs[j])
  }

  /** The record a reader at `s` stops at. */
  function Find(rs: seq<Record>, k: UserKey, s: Sequence): Option<Record> {
    if rs == [] then None
    else if rs[0].key == k && rs[0].seqno <= s then Some(rs[0])
    else Find(rs[1..], k, s)
  }

  lemma {:induction false} FindAppend(a: seq<Record>, b: seq<Record>, k: UserKey, s: Sequence)
    ensures Find(a + b, k, s) == if Find(a, k, s).Some? then Find(a, k, s) else Find(b, k, s)
  {
    if a == [] {
      assert a + b == b;
    } else {
      assert (a + b)[1..] == a[1..] + b;
      FindAppend(a[1..], b, k, s);
    }
  }

  lemma {:induction false} FindNone(rs: seq<Record>, k: UserKey, s: Sequence)
    requires forall r :: r in rs && r.key == k ==> r.seqno > s
    ensures Find(rs, k, s) == None
  {
    if rs != [] {
      assert rs[0] in rs;
      FindNone(rs[1..], k, s);
    }
  }

  lemma {:induction false} FindSome(rs: seq<Record>, k: UserKey, s: Sequence)
    requires exists r :: r in rs && r.key == k && r.seqno <= s
    ensures Find(rs, k, s).Some?
  {
    if !(rs[0].key == k && rs[0].seqno <= s) {
      FindSome(rs[1..], k, s);
    }
  }

  lemma {:induction false} FindIsMember(rs: seq<Record>, k: UserKey, s: Sequence)
    requires Find(rs, k, s).Some?
    ensures Find(rs, k, s).value in rs && Find(rs, k, s).value.key == k && Find(rs, k, s).value.seqno <= s
  {
    if !(rs[0].key == k && rs[0].seqno <= s) {
      FindIsMember(rs[1..], k, s);
    }
  }
}
