/** gateway/flow_control/flow_record.go: a buffer that is copied out and truncated in place,
    so that later records overwrite the same backing array. */
module FlowRecord {

  // ----- by value -----

  /** The batches taken so far, in lock order, and what is still in the buffer. */
  datatype Log<T> = Log(taken: seq<seq<T>>, live: seq<T>)

  function Add<T>(l: Log<T>, record: T): Log<T> {
    l.(live := l.live + [record])
  }

  function Flush<T>(l: Log<T>): Log<T> {
    if l.live == [] then l else Log(l.taken + [l.live], [])
  }

  function Concat<T>(batches: seq<seq<T>>): seq<T> {
    if batches == [] then [] else Concat(batches[..|batches| - 1]) + batches[|batches| - 1]
  }

  function All<T>(l: Log<T>): seq<T> {
    Concat(l.taken) + l.live
  }

  lemma {:induction false} FlushConserves<T>(l: Log<T>)
    ensures All(Flush(l)) == All(l)
  {
    if l.live != [] {
      assert (l.taken + [l.live])[..|l.taken|] == l.taken;
    }
  }

  datatype Op<T> = AddOp(record: T) | FlushOp

  function Replay<T>(ops: seq<Op<T>>): Log<T> {
    if ops == [] then Log([], [])
    else
      var l := Replay(ops[..|ops| - 1]);
      match ops[|ops| - 1]
      case AddOp(r) => Add(l, r)
      case FlushOp => Flush(l)
  }

  function Added<T>(ops: seq<Op<T>>): seq<T> {
    if ops == [] then []
    else
      var front := Added(ops[..|ops| - 1]);
      if ops[|ops| - 1].AddOp? then front + [ops[|ops| - 1].record] else front
  }

  /** Conservation: in every interleaving, the batches in lock order and then the live buffer are
      exactly the records added, each once and in order, and no batch is empty. */
  lemma {:induction false} NothingLost<T>(ops: seq<Op<T>>)
    ensures All(Replay(ops)) == Added(ops)
    ensures forall i :: 0 <= i < |Replay(ops).taken| ==> Replay(ops).taken[i] != []
  {
    if ops != [] {
      var l := Replay(ops[..|ops| - 1]);
      NothingLost(ops[..|ops| - 1]);
      FlushConserves(l);
      if ops[|ops| - 1].AddOp? {
        assert Concat(l.taken) + (l.live + [ops[|ops| - 1].record]) == All(l) + [ops[|ops| - 1].record];
      }
    }
  }

  // ----- in place -----

  const FLUSH_AT := 100

  class FlowRecorder<T(0)> {
    var data: array<T>  // the backing array of recordBuffer
    var len: nat
    ghost var batches: seq<array<T>>
    ghost var Taken: seq<seq<T>>

    ghost predicate Valid()
      reads this, data, batches
    {
      && len <= data.Length && data !in batches && |batches| == |Taken|
      && forall i :: 0 <= i < |batches| ==> batches[i][..] == Taken[i]
    }

    ghost function Value(): Log<T>
      requires Valid()
      reads this, data, batches
    {
      Log(Taken, data[..len])
    }

    constructor ()
      ensures Valid() && Value() == Log([], []) && fresh(data)
    {
      data := new T[FLUSH_AT];
      len := 0;
      batches := [];
      Taken := [];
    }

    /** `grow` is how much more than needed the runtime allocates when the array is full.
        The result says whether a flush is started. */
    method AddRecord(record: T, grow: nat) returns (flush: bool)
      requires Valid()
      modifies this, data
      ensures Valid() && Value() == Add(old(Value()), record)
      ensures Value().live == old(Value()).live + [record] && Value().taken == old(Value()).taken
      ensures batches == old(batches) && (data == old(data) || fresh(data))
      ensures flush <==> |Value().live| >= FLUSH_AT
    {
      if len == data.Length {
        var bigger := new T[len + 1 + grow];
        forall i | 0 <= i < len {
          bigger[i] := data[i];
        }
        assert bigger[..len] == data[..len];
        data := bigger;
      }
      data[len] := record;
      len := len + 1;
      flush := len >= FLUSH_AT;
    }

    /** Copies the buffer out and truncates it; the batch is a new array, and no batch taken
        before changes. */
    method DoFlush() returns (batch: array?<T>)
      requires Valid()
      modifies this
      ensures Valid() && Value() == Flush(old(Value())) && data == old(data)
      ensures Value().live == []
      ensures Value().taken == old(Value()).taken + if batch == null then [] else [batch[..]]
      ensures batch == null <==> old(Value()).live == []
      ensures batch != null ==> fresh(batch) && batch[..] == old(Value()).live && batches == old(batches) + [batch]
      ensures batch == null ==> batches == old(batches)
    {
      if len == 0 {
        return null;
      }
      var records := new T[len];
      forall i | 0 <= i < len {
        records[i] := data[i];
      }
      ghost var live := data[..len];
      assert records[..] == live;
      batches := batches + [records];
      Taken := Taken + [live];
      len := 0;
      assert live == old(Value()).live && |live| > 0;
      assert Taken == old(Value()).taken + [live] && data[..len] == [];
      assert batches[|batches| - 1][..] == Taken[|Taken| - 1];
      assert forall i :: 0 <= i < |batches| - 1 ==> batches[i] == old(batches)[i] && Taken[i] == old(Taken)[i];
      assert Valid();
      return records;
    }
  }
}
