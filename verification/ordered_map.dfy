/** internal/structure/ordered_map.go: a hash map and a doubly linked list over the same
    entries, which together represent a sequence of pairs without repeated keys. */
module OrderedMaps {
  import opened Options

  // ----- the sequence the structure stands for -----

  type Pairs<K, V> = seq<(K, V)>

  ghost predicate UniqueKeys<K, V>(s: Pairs<K, V>) {
    forall i, j :: 0 <= i < j < |s| ==> s[i].0 != s[j].0
  }

  function Assign<K(==), V>(s: Pairs<K, V>, k: K, v: V): Pairs<K, V> {
    if s == [] then [(k, v)]
    else if s[0].0 == k then [(k, v)] + s[1..]
    else [s[0]] + Assign(s[1..], k, v)
  }

  function Without<K(==), V>(s: Pairs<K, V>, k: K): Pairs<K, V> {
    if s == [] then [] else if s[0].0 == k then s[1..] else [s[0]] + Without(s[1..], k)
  }

  ghost predicate HasKey<K, V>(s: Pairs<K, V>, k: K) {
    exists i :: 0 <= i < |s| && s[i].0 == k
  }

  lemma {:induction false} AssignPresent<K, V>(s: Pairs<K, V>, p: nat, v: V)
    requires UniqueKeys(s) && p < |s|
    ensures Assign(s, s[p].0, v) == s[p := (s[p].0, v)]
  {
    if p > 0 {
      assert s[0].0 != s[p].0 && s[1..][p - 1] == s[p];
      AssignPresent(s[1..], p - 1, v);
      assert [s[0]] + s[1..][p - 1 := (s[p].0, v)] == s[p := (s[p].0, v)];
    }
  }

  lemma {:induction false} AssignAbsent<K, V>(s: Pairs<K, V>, k: K, v: V)
    requires !HasKey(s, k)
    ensures Assign(s, k, v) == s + [(k, v)]
  {
    if s != [] {
      assert s[0].0 != k;
      forall i | 0 <= i < |s[1..]| ensures s[1..][i].0 != k {
        assert s[1..][i] == s[i + 1];
      }
      AssignAbsent(s[1..], k, v);
    }
  }

  /** Where the i-th element was before the p-th one was taken out. */
  ghost function Skip(i: int, p: int): int {
    if i < p then i else i + 1
  }

  /** The sequence without its p-th element. */
  ghost function Drop<T>(s: seq<T>, p: nat): seq<T>
    requires p < |s|
  {
    seq(|s| - 1, i requires 0 <= i < |s| - 1 => s[Skip(i, p)])
  }

  lemma {:induction false} WithoutPresent<K, V>(s: Pairs<K, V>, p: nat)
    requires UniqueKeys(s) && p < |s|
    ensures Without(s, s[p].0) == Drop(s, p)
  {
    if p == 0 {
      assert Drop(s, 0) == s[1..];
    } else {
      assert s[0].0 != s[p].0;
      WithoutPresent(s[1..], p - 1);
      assert [s[0]] + Drop(s[1..], p - 1) == Drop(s, p);
    }
  }

  lemma {:induction false} WithoutAbsent<K, V>(s: Pairs<K, V>, k: K)
    requires !HasKey(s, k)
    ensures Without(s, k) == s
  {
    if s != [] {
      assert s[0].0 != k;
      forall i | 0 <= i < |s[1..]| ensures s[1..][i].0 != k {
        assert s[1..][i] == s[i + 1];
      }
      WithoutAbsent(s[1..], k);
    }
  }

  // ----- the structure -----

  class Entry<K, V> {
    const key: K
    var value: V
    var prev: Entry?<K, V>
    var next: Entry?<K, V>

    constructor (key: K, value: V)
      ensures this.key == key && this.value == value && prev == null && next == null
    {
      this.key := key;
      this.value := value;
      prev := null;
      next := null;
    }
  }

  ghost function Nth<K, V>(s: seq<Entry<K, V>>, i: int): Entry?<K, V> {
    if 0 <= i < |s| then s[i] else null
  }

  ghost predicate NextChain<K, V>(s: seq<Entry<K, V>>)
    reads s`next
  {
    forall i {:trigger s[i].next} :: 0 <= i < |s| ==> s[i].next == Nth(s, i + 1)
  }

  ghost predicate PrevChain<K, V>(s: seq<Entry<K, V>>)
    reads s`prev
  {
    forall i {:trigger s[i].prev} :: 0 <= i < |s| ==> s[i].prev == Nth(s, i - 1)
  }

  ghost predicate Distinct<K, V>(s: seq<Entry<K, V>>) {
    forall i, j :: 0 <= i < j < |s| ==> s[i] != s[j]
  }

  /** `items` maps exactly the keys of the nodes, each to its node. */
  ghost predicate Indexes<K, V>(items: map<K, Entry<K, V>>, s: seq<Entry<K, V>>) {
    && (forall i :: 0 <= i < |s| ==> s[i].key in items && items[s[i].key] == s[i])
    && (forall k :: k in items ==> items[k] in s && items[k].key == k)
  }

  ghost function Elements<K, V>(s: seq<Entry<K, V>>): set<object> {
    set e | e in s
  }

  lemma DropElements<K, V>(s: seq<Entry<K, V>>, p: nat)
    requires p < |s|
    ensures Elements(Drop(s, p)) <= Elements(s)
  {
    forall e | e in Drop(s, p) ensures e in s {
      var i :| 0 <= i < |s| - 1 && Drop(s, p)[i] == e;
      assert s[Skip(i, p)] == e;
    }
  }

  // Taking the p-th entry out of a chain whose other links already lead past it.

  ghost predicate IsDrop<T>(s: seq<T>, p: int, rest: seq<T>) {
    |rest| == |s| - 1 && forall i :: 0 <= i < |rest| ==> 0 <= Skip(i, p) < |s| && rest[i] == s[Skip(i, p)]
  }

  lemma BypassNext<K, V>(s: seq<Entry<K, V>>, p: nat, rest: seq<Entry<K, V>>)
    requires p < |s| && IsDrop(s, p, rest)
    requires forall j {:trigger s[j].next} :: 0 <= j < |s| && j != p ==>
      s[j].next == Nth(s, if j + 1 == p then p + 1 else j + 1)
    ensures NextChain(rest)
  {
    forall i | 0 <= i < |rest| ensures rest[i].next == Nth(rest, i + 1) {
      assert rest[i] == s[Skip(i, p)];
    }
  }

  lemma BypassPrev<K, V>(s: seq<Entry<K, V>>, p: nat, rest: seq<Entry<K, V>>)
    requires p < |s| && IsDrop(s, p, rest)
    requires forall j {:trigger s[j].prev} :: 0 <= j < |s| && j != p ==>
      s[j].prev == Nth(s, if j == p + 1 then p - 1 else j - 1)
    ensures PrevChain(rest)
  {
    forall i | 0 <= i < |rest| ensures rest[i].prev == Nth(rest, i - 1) {
      assert rest[i] == s[Skip(i, p)];
    }
  }

  lemma BypassDistinct<K, V>(s: seq<Entry<K, V>>, p: nat, rest: seq<Entry<K, V>>)
    requires p < |s| && IsDrop(s, p, rest) && Distinct(s)
    ensures Distinct(rest)
  {
    forall i, j | 0 <= i < j < |rest| ensures rest[i] != rest[j] {
      assert rest[i] == s[Skip(i, p)] && rest[j] == s[Skip(j, p)];
    }
  }

  lemma BypassEnds<K, V>(s: seq<Entry<K, V>>, p: nat, rest: seq<Entry<K, V>>)
    requires p < |s| && IsDrop(s, p, rest)
    ensures Nth(rest, 0) == Nth(s, if p == 0 then 1 else 0)
    ensures Nth(rest, |rest| - 1) == Nth(s, if p == |s| - 1 then p - 1 else |s| - 1)
  {
    if |rest| > 0 {
      assert rest[0] == s[Skip(0, p)] && rest[|rest| - 1] == s[Skip(|rest| - 1, p)];
    }
  }

  lemma Bypass<K, V>(s: seq<Entry<K, V>>, p: nat, rest: seq<Entry<K, V>>)
    requires p < |s| && IsDrop(s, p, rest) && Distinct(s)
    requires forall j {:trigger s[j].next} :: 0 <= j < |s| && j != p ==>
      s[j].next == Nth(s, if j + 1 == p then p + 1 else j + 1)
    requires forall j {:trigger s[j].prev} :: 0 <= j < |s| && j != p ==>
      s[j].prev == Nth(s, if j == p + 1 then p - 1 else j - 1)
    ensures NextChain(rest) && PrevChain(rest) && Distinct(rest)
    ensures Nth(rest, 0) == Nth(s, if p == 0 then 1 else 0)
    ensures Nth(rest, |rest| - 1) == Nth(s, if p == |s| - 1 then p - 1 else |s| - 1)
  {
    BypassNext(s, p, rest);
    BypassPrev(s, p, rest);
    BypassDistinct(s, p, rest);
    BypassEnds(s, p, rest);
  }

  ghost predicate FirstMatch<K, V>(s: Pairs<K, V>, predic: (K, V) -> bool, i: int) {
    0 <= i < |s| && predic(s[i].0, s[i].1) && forall j :: 0 <= j < i ==> !predic(s[j].0, s[j].1)
  }

  lemma {:induction false} DistinctCount<T>(s: seq<T>)
    requires forall i, j :: 0 <= i < j < |s| ==> s[i] != s[j]
    ensures |set x | x in s| == |s|
  {
    if s != [] {
      var t := s[..|s| - 1];
      DistinctCount(t);
      assert (set x | x in s) == (set x | x in t) + {s[|s| - 1]};
    }
  }

  class OrderedMap<K(==), V> {
    var items: map<K, Entry<K, V>>
    var head: Entry?<K, V>
    var tail: Entry?<K, V>
    ghost var Nodes: seq<Entry<K, V>>

    /** `next` from head to tail and `prev` from tail to head run through `Nodes`. */
    ghost predicate Linked()
      reads this`head, this`tail, this`Nodes, Nodes`prev, Nodes`next
    {
      && head == Nth(Nodes, 0) && tail == Nth(Nodes, |Nodes| - 1)
      && NextChain(Nodes) && PrevChain(Nodes) && Distinct(Nodes)
    }

    ghost predicate Valid()
      reads this, Nodes
    {
      Linked() && Indexes(items, Nodes)
    }

    static ghost function PairsOf(nodes: seq<Entry<K, V>>): Pairs<K, V>
      reads nodes
    {
      seq(|nodes|, i requires 0 <= i < |nodes| reads nodes => (nodes[i].key, nodes[i].value))
    }

    ghost function Contents(): Pairs<K, V>
      reads this`Nodes, Nodes
    {
      PairsOf(Nodes)
    }

    lemma ContentsUnique()
      requires Indexes(items, Nodes) && Distinct(Nodes)
      ensures UniqueKeys(Contents())
      ensures forall k :: k in items <==> HasKey(Contents(), k)
    {
      forall i, j | 0 <= i < j < |Nodes| ensures Nodes[i].key != Nodes[j].key {
        assert items[Nodes[i].key] == Nodes[i] && items[Nodes[j].key] == Nodes[j];
      }
      forall k | k in items ensures HasKey(Contents(), k) {
        var i :| 0 <= i < |Nodes| && Nodes[i] == items[k];
        assert Contents()[i].0 == k;
      }
    }

    lemma ItemsCount()
      requires Valid()
      ensures |Contents()| == |items|
    {
      ContentsUnique();
      var nodes := Nodes;
      var keys := seq(|nodes|, i requires 0 <= i < |nodes| => nodes[i].key);
      forall i, j | 0 <= i < j < |keys| ensures keys[i] != keys[j] {
        assert Contents()[i].0 != Contents()[j].0;
      }
      DistinctCount(keys);
      forall k | k in items ensures k in keys {
        var i :| 0 <= i < |Nodes| && Nodes[i] == items[k];
        assert keys[i] == k;
      }
      assert (set k | k in keys) == items.Keys;
    }

    constructor ()
      ensures Valid() && Contents() == [] && Nodes == []
    {
      items := map[];
      head := null;
      tail := null;
      Nodes := [];
    }

    method Len() returns (n: int)
      requires Valid()
      ensures n == |Contents()|
    {
      ItemsCount();
      n := |items|;
    }

    method Get(key: K) returns (r: Option<V>)
      requires Valid()
      ensures r.None? ==> !HasKey(Contents(), key)
      ensures r.Some? ==> (key, r.value) in Contents()
    {
      ContentsUnique();
      if key in items {
        ghost var i :| 0 <= i < |Nodes| && Nodes[i] == items[key];
        assert Contents()[i] == (key, items[key].value);
        return Some(items[key].value);
      }
      return None;
    }

    method AppendToTail(entry: Entry<K, V>)
      requires Linked() && entry !in Nodes && entry.prev == null && entry.next == null
      modifies this`head, this`tail, this`Nodes, Nodes, entry
      ensures Linked() && Nodes == old(Nodes) + [entry]
      ensures Contents() == old(Contents()) + [(entry.key, entry.value)] && entry.value == old(entry.value)
    {
      if tail == null {
        head := entry;
        tail := entry;
      } else {
        tail.next := entry;
        entry.prev := tail;
        tail := entry;
      }
      Nodes := Nodes + [entry];
    }

    /** The key is new: a fresh entry at the tail. */
    method Insert(key: K, value: V)
      requires Valid() && key !in items
      modifies this, Nodes
      ensures Valid() && fresh(Elements(Nodes) - Elements(old(Nodes)))
      ensures Contents() == old(Contents()) + [(key, value)]
    {
      var entry := new Entry(key, value);
      items := items[key := entry];
      AppendToTail(entry);
    }

    /** The key is known: overwrites the entry's value. */
    method Update(entry: Entry<K, V>, ghost p: nat, value: V)
      requires Valid() && p < |Nodes| && Nodes[p] == entry
      modifies entry`value
      ensures Valid() && Contents() == old(Contents())[p := (entry.key, value)]
    {
      entry.value := value;
    }

    method Set(key: K, value: V)
      requires Valid()
      modifies this, Nodes
      ensures Valid() && fresh(Elements(Nodes) - Elements(old(Nodes)))
      ensures Contents() == Assign(old(Contents()), key, value)
    {
      ContentsUnique();
      if key in items {
        ghost var p :| 0 <= p < |Nodes| && Nodes[p] == items[key];
        AssignPresent(Contents(), p, value);
        Update(items[key], p, value);
      } else {
        AssignAbsent(Contents(), key, value);
        Insert(key, value);
      }
    }

    /** The map part of a deletion: afterwards `items` describes the nodes but the p-th. */
    method Unindex(key: K, ghost p: nat, ghost rest: seq<Entry<K, V>>)
      requires Valid() && p < |Nodes| && Nodes[p].key == key && IsDrop(Nodes, p, rest)
      modifies this`items
      ensures Indexes(items, rest)
    {
      items := items - {key};
      forall i | 0 <= i < |rest| ensures rest[i].key in items && items[rest[i].key] == rest[i] {
        assert rest[i] == Nodes[Skip(i, p)];
        assert rest[i] != Nodes[p];
      }
      forall k | k in items ensures items[k] in rest {
        ghost var j :| 0 <= j < |Nodes| && Nodes[j] == items[k];
        assert rest[if j < p then j else j - 1] == Nodes[j];
      }
    }

    ghost predicate Bypassed(p: nat)
      reads this`head, this`tail, this`Nodes, Nodes`prev, Nodes`next
    {
      && p < |Nodes| && Distinct(Nodes)
      && head == Nth(Nodes, if p == 0 then 1 else 0)
      && tail == Nth(Nodes, if p == |Nodes| - 1 then p - 1 else |Nodes| - 1)
      && (forall j {:trigger Nodes[j].next} :: 0 <= j < |Nodes| && j != p ==>
            Nodes[j].next == Nth(Nodes, if j + 1 == p then p + 1 else j + 1))
      && (forall j {:trigger Nodes[j].prev} :: 0 <= j < |Nodes| && j != p ==>
            Nodes[j].prev == Nth(Nodes, if j == p + 1 then p - 1 else j - 1))
    }

    /** Afterwards every pointer leads past the p-th node. */
    method RemoveFromList(entry: Entry<K, V>, ghost p: nat)
      requires Linked() && p < |Nodes| && Nodes[p] == entry
      modifies this`head, this`tail, Nodes`prev, Nodes`next
      ensures Bypassed(p) && Contents() == old(Contents())
      ensures entry.prev == null && entry.next == null
    {
      if entry.prev != null {
        entry.prev.next := entry.next;
      } else {
        head := entry.next;
      }
      if entry.next != null {
        entry.next.prev := entry.prev;
      } else {
        tail := entry.prev;
      }
      entry.prev := null;
      entry.next := null;
    }

    static lemma PairsOfDrop(nodes: seq<Entry<K, V>>, p: nat)
      requires p < |nodes|
      ensures PairsOf(Drop(nodes, p)) == Drop(PairsOf(nodes), p)
    {
    }

    ghost method Forget(p: nat)
      requires Bypassed(p)
      modifies this`Nodes
      ensures Linked() && Nodes == old(Drop(Nodes, p))
      ensures Contents() == old(Drop(Contents(), p))
    {
      PairsOfDrop(Nodes, p);
      var rest := Drop(Nodes, p);
      Bypass(Nodes, p, rest);
      Nodes := rest;
    }

    /** Takes a known entry out of the map and of the list. */
    method Unlink(entry: Entry<K, V>, ghost p: nat)
      requires Valid() && p < |Nodes| && Nodes[p] == entry
      modifies this, Nodes
      ensures Valid() && Elements(Nodes) <= Elements(old(Nodes))
      ensures Contents() == old(Drop(Contents(), p))
    {
      DropElements(Nodes, p);
      Unindex(entry.key, p, Drop(Nodes, p));
      RemoveFromList(entry, p);
      Forget(p);
    }

    method Delete(key: K) returns (found: bool)
      requires Valid()
      modifies this, Nodes
      ensures Valid() && Elements(Nodes) <= Elements(old(Nodes))
      ensures Contents() == Without(old(Contents()), key)
      ensures found <==> HasKey(old(Contents()), key)
    {
      ContentsUnique();
      if key in items {
        var entry := items[key];
        ghost var p :| 0 <= p < |Nodes| && Nodes[p] == entry;
        WithoutPresent(Contents(), p);
        Unlink(entry, p);
        return true;
      }
      WithoutAbsent(Contents(), key);
      return false;
    }

    method Clear()
      modifies this
      ensures Valid() && Contents() == [] && Nodes == []
    {
      items := map[];
      head := null;
      tail := null;
      Nodes := [];
    }

    method List() returns (result: Pairs<K, V>)
      requires Valid()
      ensures result == Contents()
    {
      result := [];
      var current := head;
      ghost var i := 0;
      while current != null
        invariant 0 <= i <= |Nodes| && current == Nth(Nodes, i) && result == Contents()[..i]
        decreases |Nodes| - i
      {
        result := result + [(current.key, current.value)];
        current := current.next;
        i := i + 1;
      }
    }

    method Keys() returns (result: seq<K>)
      requires Valid()
      ensures |result| == |Contents()| && forall i :: 0 <= i < |result| ==> result[i] == Contents()[i].0
    {
      result := [];
      var current := head;
      while current != null
        invariant |result| <= |Nodes| && current == Nth(Nodes, |result|)
        invariant forall i :: 0 <= i < |result| ==> result[i] == Contents()[i].0
        decreases |Nodes| - |result|
      {
        result := result + [current.key];
        current := current.next;
      }
    }

    method Values() returns (result: seq<V>)
      requires Valid()
      ensures |result| == |Contents()| && forall i :: 0 <= i < |result| ==> result[i] == Contents()[i].1
    {
      result := [];
      var current := head;
      while current != null
        invariant |result| <= |Nodes| && current == Nth(Nodes, |result|)
        invariant forall i :: 0 <= i < |result| ==> result[i] == Contents()[i].1
        decreases |Nodes| - |result|
      {
        result := result + [current.value];
        current := current.next;
      }
    }

    /** The first pair that satisfies the predicate, if any does. */
    method Find(predic: (K, V) -> bool) returns (r: Option<(K, V)>)
      requires Valid()
      ensures r.None? ==> forall i :: 0 <= i < |Contents()| ==> !predic(Contents()[i].0, Contents()[i].1)
      ensures r.Some? ==> exists i :: FirstMatch(Contents(), predic, i) && Contents()[i] == r.value
    {
      var current := head;
      ghost var i := 0;
      while current != null
        invariant 0 <= i <= |Nodes| && current == Nth(Nodes, i)
        invariant forall j :: 0 <= j < i ==> !predic(Contents()[j].0, Contents()[j].1)
        decreases |Nodes| - i
      {
        if predic(current.key, current.value) {
          assert FirstMatch(Contents(), predic, i);
          return Some((current.key, current.value));
        }
        current := current.next;
        i := i + 1;
      }
      return None;
    }

    method Front() returns (r: Option<(K, V)>)
      requires Valid()
      ensures r == if Contents() == [] then None else Some(Contents()[0])
    {
      if head != null {
        return Some((head.key, head.value));
      }
      return None;
    }

    method Back() returns (r: Option<(K, V)>)
      requires Valid()
      ensures r == if Contents() == [] then None else Some(Contents()[|Contents()| - 1])
    {
      if tail != null {
        return Some((tail.key, tail.value));
      }
      return None;
    }
  }

  // ----- every operation sequence -----

  datatype Op<K, V> = Put(key: K, value: V) | Remove(key: K) | Wipe

  function Replay<K(==), V>(ops: seq<Op<K, V>>): Pairs<K, V> {
    if ops == [] then []
    else
      var s := Replay(ops[..|ops| - 1]);
      match ops[|ops| - 1]
      case Put(k, v) => Assign(s, k, v)
      case Remove(k) => Without(s, k)
      case Wipe => []
  }

  predicate Kills<K(==), V>(op: Op<K, V>, k: K) {
    op.Wipe? || (op.Remove? && op.key == k)
  }

  predicate Puts<K(==), V>(op: Op<K, V>, k: K) {
    op.Put? && op.key == k
  }

  /** `i` is the operation that inserted `k` for good: nothing removed it since, and every
      earlier insertion of it was removed before `i`. */
  ghost predicate BornAt<K, V>(ops: seq<Op<K, V>>, k: K, i: int) {
    && 0 <= i < |ops| && Puts(ops[i], k)
    && (forall j :: i < j < |ops| ==> !Kills(ops[j], k))
    && forall j :: 0 <= j < i && Puts(ops[j], k) ==> exists d :: j < d < i && Kills(ops[d], k)
  }

  /** `i` is the last operation that set `k`, and nothing removed it since. */
  ghost predicate LastSetAt<K, V>(ops: seq<Op<K, V>>, k: K, i: int) {
    0 <= i < |ops| && Puts(ops[i], k) && forall j :: i < j < |ops| ==> !Kills(ops[j], k) && !Puts(ops[j], k)
  }

  /** Every insertion of `k` has been removed again. */
  ghost predicate Dead<K, V>(ops: seq<Op<K, V>>, k: K) {
    forall j :: 0 <= j < |ops| && Puts(ops[j], k) ==> exists d :: j < d < |ops| && Kills(ops[d], k)
  }

  /** The entries `s` with the operations that inserted and last set each of them. */
  ghost predicate Accounts<K(!new), V>(ops: seq<Op<K, V>>, s: Pairs<K, V>, born: seq<int>, last: seq<int>) {
    && |born| == |last| == |s| && UniqueKeys(s)
    && (forall p :: 0 <= p < |s| ==> BornAt(ops, s[p].0, born[p]))
    && (forall p :: 0 <= p < |s| ==> LastSetAt(ops, s[p].0, last[p]) && ops[last[p]].value == s[p].1)
    && (forall p, q :: 0 <= p < q < |s| ==> born[p] < born[q])
    && (forall k :: !HasKey(s, k) ==> Dead(ops, k))
  }

  lemma {:induction false} BornSurvives<K, V>(ops: seq<Op<K, V>>, op: Op<K, V>, k: K, i: int)
    requires BornAt(ops, k, i) && !Kills(op, k)
    ensures BornAt(ops + [op], k, i)
  {
    var ops' := ops + [op];
    forall j | 0 <= j < i && Puts(ops'[j], k) ensures exists d :: j < d < i && Kills(ops'[d], k) {
      var d :| j < d < i && Kills(ops[d], k);
      assert Kills(ops'[d], k);
    }
  }

  lemma {:induction false} DeathLasts<K, V>(ops: seq<Op<K, V>>, op: Op<K, V>, k: K)
    requires (Dead(ops, k) && !Puts(op, k)) || Kills(op, k)
    ensures Dead(ops + [op], k)
  {
    var ops' := ops + [op];
    forall j | 0 <= j < |ops'| && Puts(ops'[j], k) ensures exists d :: j < d < |ops'| && Kills(ops'[d], k) {
      if Kills(op, k) {
        assert Kills(ops'[|ops|], k);
      } else {
        assert Puts(ops[j], k);
        var d :| j < d < |ops| && Kills(ops[d], k);
        assert Kills(ops'[d], k);
      }
    }
  }

  lemma {:induction false} BornAnew<K, V>(ops: seq<Op<K, V>>, k: K, v: V)
    requires Dead(ops, k)
    ensures BornAt(ops + [Put(k, v)], k, |ops|)
  {
    var ops' := ops + [Put(k, v)];
    forall j | 0 <= j < |ops| && Puts(ops'[j], k) ensures exists d :: j < d < |ops| && Kills(ops'[d], k) {
      assert Puts(ops[j], k);
      var d :| j < d < |ops| && Kills(ops[d], k);
      assert Kills(ops'[d], k);
    }
  }

  lemma {:induction false} SetSurvives<K, V>(ops: seq<Op<K, V>>, op: Op<K, V>, k: K, i: int)
    requires LastSetAt(ops, k, i) && !Kills(op, k) && !Puts(op, k)
    ensures LastSetAt(ops + [op], k, i)
  {
  }

  lemma {:induction false} PutAgain<K(
      !new), V>(ops: seq<Op<K, V>>, s: Pairs<K, V>, born: seq<int>, last: seq<int>, p: nat, v: V)
    requires Accounts(ops, s, born, last) && p < |s|
    ensures Accounts(ops + [Put(s[p].0, v)], s[p := (s[p].0, v)], born, last[p := |ops|])
  {
    var k, last' := s[p].0, last[p := |ops|];
    var op, s' := Put(k, v), s[p := (k, v)];
    forall q | 0 <= q < |s'|
      ensures BornAt(ops + [op], s'[q].0, born[q])
      ensures LastSetAt(ops + [op], s'[q].0, last'[q]) && (ops + [op])[last'[q]].value == s'[q].1
    {
      BornSurvives(ops, op, s[q].0, born[q]);
      if q != p {
        assert LastSetAt(ops, s[q].0, last[q]) && last[q] == last'[q];
        assert s[q].0 != k;
        SetSurvives(ops, op, s[q].0, last[q]);
      }
    }
    assert s'[p].0 == k;
    forall k' | HasKey(s, k') ensures HasKey(s', k') {
      var q :| 0 <= q < |s| && s[q].0 == k';
      assert s'[q].0 == k';
    }
    forall k' | !HasKey(s', k') ensures Dead(ops + [op], k') {
      DeathLasts(ops, op, k');
    }
  }

  lemma {:induction false} PutNew<K(
      !new), V>(ops: seq<Op<K, V>>, s: Pairs<K, V>, born: seq<int>, last: seq<int>, k: K, v: V)
    requires Accounts(ops, s, born, last) && !HasKey(s, k)
    ensures Accounts(ops + [Put(k, v)], s + [(k, v)], born + [|ops|], last + [|ops|])
  {
    var op, s' := Put(k, v), s + [(k, v)];
    var born', last' := born + [|ops|], last + [|ops|];
    BornAnew(ops, k, v);
    forall q | 0 <= q < |s'|
      ensures BornAt(ops + [op], s'[q].0, born'[q])
      ensures LastSetAt(ops + [op], s'[q].0, last'[q]) && (ops + [op])[last'[q]].value == s'[q].1
    {
      if q < |s| {
        assert s[q].0 != k;
        BornSurvives(ops, op, s[q].0, born[q]);
        SetSurvives(ops, op, s[q].0, last[q]);
      }
    }
    forall p, q | 0 <= p < q < |s'| ensures born'[p] < born'[q] {
      assert BornAt(ops, s[p].0, born[p]);
    }
    assert s'[|s|].0 == k;
    forall k' | HasKey(s, k') ensures HasKey(s', k') {
      var q :| 0 <= q < |s| && s[q].0 == k';
      assert s'[q].0 == k';
    }
    forall k' | !HasKey(s', k') ensures Dead(ops + [op], k') {
      DeathLasts(ops, op, k');
    }
  }

  lemma {:induction false} DropKeepsOrder<K, V>(s: Pairs<K, V>, born: seq<int>, p: nat)
    requires p < |s| == |born| && UniqueKeys(s) && forall i, j :: 0 <= i < j < |s| ==> born[i] < born[j]
    ensures UniqueKeys(Drop(s, p)) && forall i, j :: 0 <= i < j < |s| - 1 ==> Drop(born, p)[i] < Drop(born, p)[j]
  {
    forall i, j | 0 <= i < j < |s| - 1
      ensures Drop(s, p)[i].0 != Drop(s, p)[j].0 && Drop(born, p)[i] < Drop(born, p)[j]
    {
      assert s[Skip(i, p)].0 != s[Skip(j, p)].0;
    }
  }

  lemma {:induction false} DropKeepsKeys<K, V>(s: Pairs<K, V>, p: nat, k: K)
    requires p < |s|
    ensures HasKey(s, k) ==> k == s[p].0 || HasKey(Drop(s, p), k)
  {
    if q :| 0 <= q < |s| && s[q].0 == k && q != p {
      assert Drop(s, p)[if q < p then q else q - 1].0 == k;
    }
  }

  lemma {:induction false} OthersSurvive<K(!new), V>(
      ops: seq<Op<K, V>>, s: Pairs<K, V>, born: seq<int>, last: seq<int>, p: nat, r: nat)
    requires Accounts(ops, s, born, last) && p < |s| && r < |s| && r != p
    ensures var ops' := ops + [Remove(s[p].0)];
            BornAt(ops', s[r].0, born[r]) && LastSetAt(ops', s[r].0, last[r]) && ops'[last[r]].value == s[r].1
  {
    var op := Remove(s[p].0);
    assert s[r].0 != s[p].0;
    BornSurvives(ops, op, s[r].0, born[r]);
    SetSurvives(ops, op, s[r].0, last[r]);
  }

  lemma {:induction false} TakeOut<K(!new), V>(
      ops: seq<Op<K, V>>, s: Pairs<K, V>, born: seq<int>, last: seq<int>, p: nat)
    requires Accounts(ops, s, born, last) && p < |s|
    ensures Accounts(ops + [Remove(s[p].0)], Drop(s, p), Drop(born, p), Drop(last, p))
  {
    var op, s', k := Remove(s[p].0), Drop(s, p), s[p].0;
    DropKeepsOrder(s, born, p);
    forall q | 0 <= q < |s'|
      ensures BornAt(ops + [op], s'[q].0, Drop(born, p)[q])
      ensures LastSetAt(ops + [op], s'[q].0, Drop(last, p)[q]) && (ops + [op])[Drop(last, p)[q]].value == s'[q].1
    {
      OthersSurvive(ops, s, born, last, p, Skip(q, p));
    }
    forall k' | !HasKey(s', k') ensures Dead(ops + [op], k') {
      DropKeepsKeys(s, p, k');
      DeathLasts(ops, op, k');
    }
  }

  lemma {:induction false} LeaveOut<K(
      !new), V>(ops: seq<Op<K, V>>, s: Pairs<K, V>, born: seq<int>, last: seq<int>, k: K)
    requires Accounts(ops, s, born, last) && !HasKey(s, k)
    ensures Accounts(ops + [Remove(k)], s, born, last)
  {
    var op := Remove(k);
    forall q | 0 <= q < |s|
      ensures BornAt(ops + [op], s[q].0, born[q])
      ensures LastSetAt(ops + [op], s[q].0, last[q]) && (ops + [op])[last[q]].value == s[q].1
    {
      assert s[q].0 != k;
      BornSurvives(ops, op, s[q].0, born[q]);
      SetSurvives(ops, op, s[q].0, last[q]);
    }
    forall k' | !HasKey(s, k') ensures Dead(ops + [op], k') {
      DeathLasts(ops, op, k');
    }
  }

  /** Any run of operations leaves an account of where every entry came from. */
  lemma {:induction false} ReplayAccounts<K(!new), V>(ops: seq<Op<K, V>>) returns (born: seq<int>, last: seq<int>)
    ensures Accounts(ops, Replay(ops), born, last)
  {
    if ops == [] {
      born, last := [], [];
    } else {
      var before, op := ops[..|ops| - 1], ops[|ops| - 1];
      assert ops == before + [op];
      var s := Replay(before);
      born, last := ReplayAccounts(before);
      match op
      case Put(k, v) =>
        if HasKey(s, k) {
          var p :| 0 <= p < |s| && s[p].0 == k;
          AssignPresent(s, p, v);
          PutAgain(before, s, born, last, p, v);
          last := last[p := |before|];
        } else {
          AssignAbsent(s, k, v);
          PutNew(before, s, born, last, k, v);
          born, last := born + [|before|], last + [|before|];
        }
      case Remove(k) =>
        if HasKey(s, k) {
          var p :| 0 <= p < |s| && s[p].0 == k;
          WithoutPresent(s, p);
          TakeOut(before, s, born, last, p);
          born, last := Drop(born, p), Drop(last, p);
        } else {
          WithoutAbsent(s, k);
          LeaveOut(before, s, born, last, k);
        }
      case Wipe =>
        born, last := [], [];
        forall k ensures Dead(ops, k) {
          DeathLasts(before, op, k);
        }
    }
  }

  lemma {:induction false} BornOnce<K, V>(ops: seq<Op<K, V>>, k: K, i: int, j: int)
    requires BornAt(ops, k, i) && BornAt(ops, k, j)
    ensures i == j
  {
  }

  /** The ordered dictionary's promise, for every run of operations: a key is present if and only
      if some insertion of it was never undone; keys stand in the order of those insertions; and
      each carries the value of its latest assignment. */
  lemma {:induction false} InsertionOrder<K(!new), V>(ops: seq<Op<K, V>>)
    ensures UniqueKeys(Replay(ops))
    ensures forall k :: HasKey(Replay(ops), k) <==> exists i :: BornAt(ops, k, i)
    ensures var s := Replay(ops); forall p, q, i, j ::
              0 <= p < q < |s| && BornAt(ops, s[p].0, i) && BornAt(ops, s[q].0, j) ==> i < j
    ensures forall p :: 0 <= p < |Replay(ops)| ==>
              exists i :: LastSetAt(ops, Replay(ops)[p].0, i) && ops[i].value == Replay(ops)[p].1
  {
    var s := Replay(ops);
    var born, last := ReplayAccounts(ops);
    forall k ensures HasKey(s, k) <==> exists i :: BornAt(ops, k, i) {
      if HasKey(s, k) {
        var p :| 0 <= p < |s| && s[p].0 == k;
        assert BornAt(ops, k, born[p]);
      } else {
        assert Dead(ops, k);
      }
    }
    forall p, q, i, j | 0 <= p < q < |s| && BornAt(ops, s[p].0, i) && BornAt(ops, s[q].0, j) ensures i < j {
      BornOnce(ops, s[p].0, i, born[p]);
      BornOnce(ops, s[q].0, j, born[q]);
    }
    forall p | 0 <= p < |s| ensures exists i :: LastSetAt(ops, s[p].0, i) && ops[i].value == s[p].1 {
      assert LastSetAt(ops, s[p].0, last[p]);
    }
  }
}
