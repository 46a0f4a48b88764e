/**
 * Building a keyed mapping from an ordered sequence of writes
 * (`records[mapKey(t)] = record` in both loaders): a later write to a key
 * overwrites an earlier one.
 */
module Keyed {

  /** The keys that `writes` assign. */
  function WrittenKeys<R>(writes: seq<(int, R)>): set<int> {
    set i | 0 <= i < |writes| :: writes[i].0
  }

  /** Performs the writes in order on `m`. */
  function Upsert<R>(m: map<int, R>, writes: seq<(int, R)>): (r: map<int, R>)
    ensures r.Keys == m.Keys + WrittenKeys(writes)
    decreases |writes|
  {
    if |writes| == 0 then m
    else
      var rest := Upsert(m[writes[0].0 := writes[0].1], writes[1..]);
      WrittenKeysCons(writes);
      rest
  }

  lemma WrittenKeysCons<R>(writes: seq<(int, R)>)
    requires |writes| > 0
    ensures WrittenKeys(writes) == {writes[0].0} + WrittenKeys(writes[1..])
  {
  }

  /** Write `i` is the last one in `writes` to its key. */
  predicate IsLastWrite<R>(writes: seq<(int, R)>, i: int) {
    0 <= i < |writes| && forall j :: i < j < |writes| ==> writes[j].0 != writes[i].0
  }

  /** Last write wins: the mapping holds, at each written key, the value of the last write to it. */
  lemma {:induction false} LastWriteWins<R>(m: map<int, R>, writes: seq<(int, R)>, i: int)
    requires IsLastWrite(writes, i)
    ensures writes[i].0 in Upsert(m, writes)
    ensures Upsert(m, writes)[writes[i].0] == writes[i].1
    decreases |writes|
  {
    var m' := m[writes[0].0 := writes[0].1];
    if i == 0 {
      forall j | 0 <= j < |writes[1..]|
        ensures writes[1..][j].0 != writes[0].0
      {
        assert writes[1..][j] == writes[j + 1];
      }
      UnwrittenKeyKept(m', writes[1..], writes[0].0);
    } else {
      assert writes[1..][i - 1] == writes[i];
      forall j | i - 1 < j < |writes[1..]|
        ensures writes[1..][j].0 != writes[1..][i - 1].0
      {
        assert writes[1..][j] == writes[j + 1];
      }
      LastWriteWins(m', writes[1..], i - 1);
    }
  }

  /** A key no write touches keeps whatever it had before. */
  lemma {:induction false} UnwrittenKeyKept<R>(m: map<int, R>, writes: seq<(int, R)>, k: int)
    requires forall j :: 0 <= j < |writes| ==> writes[j].0 != k
    ensures k in Upsert(m, writes) <==> k in m
    ensures k in m ==> Upsert(m, writes)[k] == m[k]
    decreases |writes|
  {
    if |writes| > 0 {
      forall j | 0 <= j < |writes[1..]|
        ensures writes[1..][j].0 != k
      {
        assert writes[1..][j] == writes[j + 1];
      }
      UnwrittenKeyKept(m[writes[0].0 := writes[0].1], writes[1..], k);
    }
  }
}
