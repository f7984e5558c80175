/** Who listens to which signal (src/libratel/NQSignals/Private/SignalConnectionStorage.h):
    a map of pipe lists, searched and edited in place, and the ordered relation it stands for. */
module SignalStorage {
  import opened Wrappers

  type Hash = h: int | 0 <= h < 0x1_0000_0000 witness 0

  /** A member function of an object; signals and callbacks are both named this way. */
  datatype Slot = Slot(receiver: nat, func: nat)

  /** `makeHash`; nothing is assumed about collisions unless a lemma says so. */
  type MakeHash = Slot -> Hash

  datatype SignalPipe = SignalPipe(receiver: nat, callback: Slot)

  type SignalMap = map<Hash, seq<SignalPipe>>

  datatype Op =
    | Connect(sig: Slot, slot: Slot)
    | Disconnect(sig: Slot, slot: Slot)
    | DisconnectByHash(key: Hash, receiver: nat)

  // ---------------------------------------------------------------- the operations on values

  function Find(f: MakeHash, conn: seq<SignalPipe>, h: Hash): (i: nat)
    ensures i <= |conn|
    ensures i < |conn| ==> f(conn[i].callback) == h
    ensures forall j :: 0 <= j < i ==> f(conn[j].callback) != h
  {
    if |conn| == 0 || f(conn[0].callback) == h then 0 else 1 + Find(f, conn[1..], h)
  }

  function Without(conn: seq<SignalPipe>, receiver: nat): seq<SignalPipe> {
    if |conn| == 0 then []
    else (if conn[0].receiver == receiver then [] else [conn[0]]) + Without(conn[1..], receiver)
  }

  function Erase(conn: seq<SignalPipe>, i: nat): (r: seq<SignalPipe>)
    requires i < |conn|
    ensures |r| == |conn| - 1
    ensures forall j :: 0 <= j < |r| ==> r[j] == conn[if j < i then j else j + 1]
  {
    conn[..i] + conn[i + 1..]
  }

  function Apply(f: MakeHash, m: SignalMap, op: Op): SignalMap {
    match op
    case Connect(sig, slot) =>
      var k := f(sig);
      if k !in m then m[k := [SignalPipe(slot.receiver, slot)]]
      else
        var i := Find(f, m[k], f(slot));
        if i < |m[k]| then m[k := m[k][i := m[k][i].(callback := slot)]]
        else m[k := m[k] + [SignalPipe(slot.receiver, slot)]]
    case Disconnect(sig, slot) =>
      var k := f(sig);
      if k !in m then m
      else
        var i := Find(f, m[k], f(slot));
        if i == |m[k]| then m
        else if |m[k]| == 1 then m - {k}
        else m[k := Erase(m[k], i)]
    case DisconnectByHash(key, receiver) =>
      if key !in m then m else m[key := Without(m[key], receiver)]
  }

  function Result(f: MakeHash, m: SignalMap, op: Op): bool {
    match op
    case Connect(_, _) => true
    case Disconnect(sig, slot) => f(sig) in m && Find(f, m[f(sig)], f(slot)) < |m[f(sig)]|
    case DisconnectByHash(key, _) => key in m
  }

  function Pipes(m: SignalMap, k: Hash): seq<SignalPipe> {
    if k in m then m[k] else []
  }

  // ---------------------------------------------------------------- the storage

  class SignalConnectionStorage {
    const makeHash: MakeHash
    var sigMap: SignalMap

    /** The calls made on the storage so far. */
    ghost var history: seq<Op>

    ghost predicate Valid()
      reads this
    {
      sigMap == Run(makeHash, history)
    }

    constructor (makeHash: MakeHash)
      ensures Valid() && this.makeHash == makeHash && history == []
    {
      this.makeHash, sigMap, history := makeHash, map[], [];
    }

    /** `std::find_if` on the callback hash. */
    method FindIf(conn: seq<SignalPipe>, h: Hash) returns (i: nat)
      ensures i == Find(makeHash, conn, h)
    {
      i := 0;
      while i < |conn| && makeHash(conn[i].callback) != h
        invariant i <= |conn| && Find(makeHash, conn, h) == i + Find(makeHash, conn[i..], h)
      {
        assert conn[i..][1..] == conn[i + 1..];
        i := i + 1;
      }
    }

    /** `std::remove_if` on the object, and the `erase` after it. */
    static method RemoveIf(conn: seq<SignalPipe>, receiver: nat) returns (kept: seq<SignalPipe>)
      ensures kept == Without(conn, receiver)
    {
      kept := [];
      var i := 0;
      while i < |conn|
        invariant 0 <= i <= |conn| && Without(conn, receiver) == kept + Without(conn[i..], receiver)
      {
        assert conn[i..][1..] == conn[i + 1..];
        ghost var rest := Without(conn[i + 1..], receiver);
        assert kept + ([conn[i]] + rest) == kept + [conn[i]] + rest;
        if conn[i].receiver != receiver {
          kept := kept + [conn[i]];
        }
        i := i + 1;
      }
    }

    method Connect(sig: Slot, slot: Slot) returns (ok: bool)
      requires Valid()
      modifies this
      ensures Valid() && history == old(history) + [Op.Connect(sig, slot)]
      ensures ok
      ensures sigMap == Apply(makeHash, old(sigMap), Op.Connect(sig, slot))
    {
      history := history + [Op.Connect(sig, slot)];
      assert history[..|history| - 1] == old(history);
      var k := makeHash(sig);
      if k !in sigMap {
        sigMap := sigMap[k := [SignalPipe(slot.receiver, slot)]];
        return true;
      }
      var conn := sigMap[k];
      var i := FindIf(conn, makeHash(slot));
      if i != |conn| {
        sigMap := sigMap[k := conn[i := conn[i].(callback := slot)]];
        return true;
      }
      sigMap := sigMap[k := conn + [SignalPipe(slot.receiver, slot)]];
      return true;
    }

    method Disconnect(sig: Slot, slot: Slot) returns (ok: bool)
      requires Valid()
      modifies this
      ensures Valid() && history == old(history) + [Op.Disconnect(sig, slot)]
      ensures ok <==> Connected(makeHash, old(history), makeHash(sig), makeHash(slot))
      ensures sigMap == Apply(makeHash, old(sigMap), Op.Disconnect(sig, slot))
    {
      DisconnectReports(makeHash, history, sig, slot);
      history := history + [Op.Disconnect(sig, slot)];
      assert history[..|history| - 1] == old(history);
      var k := makeHash(sig);
      if k !in sigMap {
        return false;
      }
      var i := FindIf(sigMap[k], makeHash(slot));
      if i == |sigMap[k]| {
        return false;
      }
      sigMap := sigMap[k := Erase(sigMap[k], i)];
      if |sigMap[k]| == 0 {
        sigMap := sigMap - {k};
      }
      return true;
    }

    method DisconnectByHash(key: Hash, receiver: nat) returns (ok: bool)
      requires Valid()
      modifies this
      ensures Valid() && history == old(history) + [Op.DisconnectByHash(key, receiver)]
      ensures ok <==> Present(makeHash, old(history), key)
      ensures sigMap == Apply(makeHash, old(sigMap), Op.DisconnectByHash(key, receiver))
    {
      PresentExactly(makeHash, history, key);
      history := history + [Op.DisconnectByHash(key, receiver)];
      assert history[..|history| - 1] == old(history);
      if key !in sigMap {
        return false;
      }
      var kept := RemoveIf(sigMap[key], receiver);
      sigMap := sigMap[key := kept];
      return true;
    }

    method HasConnection(key: Hash) returns (ok: bool)
      requires Valid()
      ensures ok <==> Present(makeHash, history, key)
    {
      PresentExactly(makeHash, history, key);
      return key in sigMap;
    }

    /** The exception for an absent key is `None`. */
    method GetConnection(key: Hash) returns (conn: Option<seq<SignalPipe>>)
      requires Valid()
      ensures conn.Some? <==> Present(makeHash, history, key)
      ensures conn.Some? ==> Refines(makeHash, history, key, conn.value)
    {
      PresentExactly(makeHash, history, key);
      StorageRefinesRelation(makeHash, history, key);
      if key !in sigMap {
        return None;
      }
      return Some(sigMap[key]);
    }
  }

  function Run(f: MakeHash, ops: seq<Op>): SignalMap
    decreases |ops|
  {
    if |ops| == 0 then map[] else Apply(f, Run(f, ops[..|ops| - 1]), ops[|ops| - 1])
  }

  // ---------------------------------------------------------------- the ordered relation

  /** One signal hash and one callback hash, looked at alone: since which operation they are
      connected, through which object, and to which callback. */
  datatype Entry = Entry(since: nat, receiver: nat, callback: Slot)

  function Related(f: MakeHash, ops: seq<Op>, k: Hash, h: Hash): (r: Option<Entry>)
    ensures r.Some? ==> r.value.since < |ops| && f(r.value.callback) == h
    decreases |ops|
  {
    if |ops| == 0 then None
    else
      var was := Related(f, ops[..|ops| - 1], k, h);
      match ops[|ops| - 1]
      case Connect(sig, slot) =>
        if f(sig) != k || f(slot) != h then was
        else if was.Some? then Some(was.value.(callback := slot))
        else Some(Entry(|ops| - 1, slot.receiver, slot))
      case Disconnect(sig, slot) => if f(sig) == k && f(slot) == h then None else was
      case DisconnectByHash(key, receiver) =>
        if key == k && was.Some? && was.value.receiver == receiver then None else was
  }

  predicate Connected(f: MakeHash, ops: seq<Op>, k: Hash, h: Hash) {
    Related(f, ops, k, h).Some?
  }

  predicate Stands(f: MakeHash, ops: seq<Op>, k: Hash, p: SignalPipe) {
    var e := Related(f, ops, k, f(p.callback));
    e.Some? && p == SignalPipe(e.value.receiver, e.value.callback)
  }

  function Since(f: MakeHash, ops: seq<Op>, k: Hash, p: SignalPipe): nat {
    match Related(f, ops, k, f(p.callback))
    case None => 0
    case Some(e) => e.since
  }

  ghost predicate Ascending(f: MakeHash, ops: seq<Op>, k: Hash, conn: seq<SignalPipe>) {
    forall i, j :: 0 <= i < j < |conn| ==> Since(f, ops, k, conn[i]) < Since(f, ops, k, conn[j])
  }

  /** The list holds exactly the related callbacks, in the order of their first connection. */
  ghost predicate Refines(f: MakeHash, ops: seq<Op>, k: Hash, conn: seq<SignalPipe>) {
    (forall p <- conn :: Stands(f, ops, k, p))
    && (forall h: Hash :: var e := Related(f, ops, k, h);
                          e.Some? ==> SignalPipe(e.value.receiver, e.value.callback) in conn)
    && Ascending(f, ops, k, conn)
  }

  lemma {:induction false} StorageRefinesRelation(f: MakeHash, ops: seq<Op>, k: Hash)
    ensures Refines(f, ops, k, Pipes(Run(f, ops), k))
    decreases |ops|
  {
    if |ops| == 0 {
    } else {
      var before, op := ops[..|ops| - 1], ops[|ops| - 1];
      StorageRefinesRelation(f, before, k);
      match op
      case Connect(_, _) => ConnectRefines(f, ops, k, Run(f, before));
      case Disconnect(_, _) => DisconnectRefines(f, ops, k, Run(f, before));
      case DisconnectByHash(_, receiver) => SweepRefines(f, ops, k, Run(f, before));
    }
  }

  function KeyOf(f: MakeHash, op: Op): Hash {
    match op
    case Connect(sig, _) => f(sig)
    case Disconnect(sig, _) => f(sig)
    case DisconnectByHash(key, _) => key
  }

  /** In an ordered list the callback hashes are pairwise distinct. */
  lemma DistinctHashes(f: MakeHash, ops: seq<Op>, k: Hash, conn: seq<SignalPipe>)
    requires Ascending(f, ops, k, conn)
    ensures forall i, j :: 0 <= i < j < |conn| ==> f(conn[i].callback) != f(conn[j].callback)
  {
    forall i, j | 0 <= i < j < |conn|
      ensures f(conn[i].callback) != f(conn[j].callback)
    {
      assert Since(f, ops, k, conn[i]) < Since(f, ops, k, conn[j]);
    }
  }

  lemma OtherKeysRefine(f: MakeHash, ops: seq<Op>, k: Hash, conn: seq<SignalPipe>)
    requires |ops| > 0 && KeyOf(f, ops[|ops| - 1]) != k && Refines(f, ops[..|ops| - 1], k, conn)
    ensures Refines(f, ops, k, conn)
  {
    forall h: Hash
      ensures Related(f, ops, k, h) == Related(f, ops[..|ops| - 1], k, h)
    {
    }
    forall p <- conn
      ensures Stands(f, ops, k, p)
    {
      assert Stands(f, ops[..|ops| - 1], k, p);
    }
    forall i, j | 0 <= i < j < |conn|
      ensures Since(f, ops, k, conn[i]) < Since(f, ops, k, conn[j])
    {
      assert Since(f, ops[..|ops| - 1], k, conn[i]) < Since(f, ops[..|ops| - 1], k, conn[j]);
    }
  }

  lemma ConnectRefines(f: MakeHash, ops: seq<Op>, k: Hash, m: SignalMap)
    requires |ops| > 0 && ops[|ops| - 1].Connect?
    requires Refines(f, ops[..|ops| - 1], k, Pipes(m, k))
    ensures Refines(f, ops, k, Pipes(Apply(f, m, ops[|ops| - 1]), k))
  {
    var before, slot := ops[..|ops| - 1], ops[|ops| - 1].slot;
    if f(ops[|ops| - 1].sig) != k {
      OtherKeysRefine(f, ops, k, Pipes(m, k));
    } else {
      var conn := Pipes(m, k);
      var i := Find(f, conn, f(slot));
      if i < |conn| {
        ReconnectRefines(f, ops, k, conn, i);
      } else {
        FirstConnectRefines(f, ops, k, conn);
        assert Pipes(Apply(f, m, ops[|ops| - 1]), k) == conn + [SignalPipe(slot.receiver, slot)];
      }
    }
  }

  lemma FirstConnectRefines(f: MakeHash, ops: seq<Op>, k: Hash, conn: seq<SignalPipe>)
    requires |ops| > 0 && ops[|ops| - 1].Connect? && f(ops[|ops| - 1].sig) == k
    requires Refines(f, ops[..|ops| - 1], k, conn)
    requires Find(f, conn, f(ops[|ops| - 1].slot)) == |conn|
    ensures var slot := ops[|ops| - 1].slot;
            Refines(f, ops, k, conn + [SignalPipe(slot.receiver, slot)])
  {
    var before, slot := ops[..|ops| - 1], ops[|ops| - 1].slot;
    var pipe := SignalPipe(slot.receiver, slot);
    var conn' := conn + [pipe];
    assert Related(f, before, k, f(slot)).None?;
    assert Stands(f, ops, k, pipe) && Since(f, ops, k, pipe) == |before|;
    forall i | 0 <= i < |conn|
      ensures Stands(f, ops, k, conn[i]) && Since(f, ops, k, conn[i]) == Since(f, before, k, conn[i]) < |before|
    {
      assert Stands(f, before, k, conn[i]);
    }
    forall h: Hash | h != f(slot)
      ensures Related(f, ops, k, h) == Related(f, before, k, h)
    {
    }
  }

  lemma ReconnectRefines(f: MakeHash, ops: seq<Op>, k: Hash, conn: seq<SignalPipe>, i: nat)
    requires |ops| > 0 && ops[|ops| - 1].Connect? && f(ops[|ops| - 1].sig) == k
    requires Refines(f, ops[..|ops| - 1], k, conn)
    requires i == Find(f, conn, f(ops[|ops| - 1].slot)) < |conn|
    ensures Refines(f, ops, k, conn[i := conn[i].(callback := ops[|ops| - 1].slot)])
  {
    var before, slot := ops[..|ops| - 1], ops[|ops| - 1].slot;
    var conn' := conn[i := conn[i].(callback := slot)];
    DistinctHashes(f, before, k, conn);
    forall j | 0 <= j < |conn|
      ensures Stands(f, ops, k, conn'[j]) && Since(f, ops, k, conn'[j]) == Since(f, before, k, conn[j])
    {
      assert Stands(f, before, k, conn[j]);
    }
    forall h: Hash
      ensures var e := Related(f, ops, k, h);
              e.Some? ==> SignalPipe(e.value.receiver, e.value.callback) in conn'
    {
      var e := Related(f, before, k, h);
      if h == f(slot) {
        assert conn'[i] in conn';
      } else if e.Some? {
        var j :| 0 <= j < |conn| && conn[j] == SignalPipe(e.value.receiver, e.value.callback);
        assert conn'[j] == conn[j];
      }
    }
  }

  lemma DisconnectRefines(f: MakeHash, ops: seq<Op>, k: Hash, m: SignalMap)
    requires |ops| > 0 && ops[|ops| - 1].Disconnect?
    requires Refines(f, ops[..|ops| - 1], k, Pipes(m, k))
    ensures Refines(f, ops, k, Pipes(Apply(f, m, ops[|ops| - 1]), k))
  {
    var conn, slot := Pipes(m, k), ops[|ops| - 1].slot;
    if f(ops[|ops| - 1].sig) != k {
      OtherKeysRefine(f, ops, k, conn);
    } else {
      var i := Find(f, conn, f(slot));
      EraseRefines(f, ops, k, conn, i);
      assert |conn| == 1 && i < 1 ==> Erase(conn, i) == [];
      assert Pipes(Apply(f, m, ops[|ops| - 1]), k) == if i < |conn| then Erase(conn, i) else conn;
    }
  }

  /** An operation that only removes: the survivors keep their entries and their order. */
  lemma FewerRefines(f: MakeHash, ops: seq<Op>, k: Hash, conn: seq<SignalPipe>, fewer: seq<SignalPipe>)
    requires |ops| > 0 && Refines(f, ops[..|ops| - 1], k, conn)
    requires Ascending(f, ops[..|ops| - 1], k, fewer)
    requires forall h: Hash ::
               Related(f, ops, k, h) == None || Related(f, ops, k, h) == Related(f, ops[..|ops| - 1], k, h)
    requires forall p :: p in fewer <==> p in conn && Related(f, ops, k, f(p.callback)).Some?
    ensures Refines(f, ops, k, fewer)
  {
    var before := ops[..|ops| - 1];
    forall p <- fewer
      ensures Stands(f, ops, k, p) && Since(f, ops, k, p) == Since(f, before, k, p)
    {
      assert Stands(f, before, k, p);
    }
    forall i, j | 0 <= i < j < |fewer|
      ensures Since(f, ops, k, fewer[i]) < Since(f, ops, k, fewer[j])
    {
      assert Since(f, before, k, fewer[i]) < Since(f, before, k, fewer[j]);
    }
  }

  lemma EraseRefines(f: MakeHash, ops: seq<Op>, k: Hash, conn: seq<SignalPipe>, i: nat)
    requires |ops| > 0 && ops[|ops| - 1].Disconnect? && f(ops[|ops| - 1].sig) == k
    requires Refines(f, ops[..|ops| - 1], k, conn)
    requires i == Find(f, conn, f(ops[|ops| - 1].slot))
    ensures Refines(f, ops, k, if i < |conn| then Erase(conn, i) else conn)
  {
    var before, h := ops[..|ops| - 1], f(ops[|ops| - 1].slot);
    var fewer := if i < |conn| then Erase(conn, i) else conn;
    DistinctHashes(f, before, k, conn);
    forall p | p in conn
      ensures Related(f, ops, k, f(p.callback)).Some? <==> f(p.callback) != h
    {
      assert Stands(f, before, k, p);
    }
    if i < |conn| {
      EraseKeepsOrder(f, before, k, conn, i);
      forall p: SignalPipe
        ensures p in fewer <==> p in conn && f(p.callback) != h
      {
        EraseDropsOne(f, conn, i, p);
      }
    }
    FewerRefines(f, ops, k, conn, fewer);
  }

  lemma EraseDropsOne(f: MakeHash, conn: seq<SignalPipe>, i: nat, p: SignalPipe)
    requires i < |conn|
    requires forall j :: 0 <= j < |conn| && j != i ==> f(conn[j].callback) != f(conn[i].callback)
    ensures p in Erase(conn, i) <==> p in conn && f(p.callback) != f(conn[i].callback)
  {
    var fewer := Erase(conn, i);
    if p in fewer {
      var j :| 0 <= j < |fewer| && fewer[j] == p;
      assert conn[if j < i then j else j + 1] == p;
    }
    if p in conn && f(p.callback) != f(conn[i].callback) {
      var j :| 0 <= j < |conn| && conn[j] == p;
      assert fewer[if j < i then j else j - 1] == p;
    }
  }

  lemma EraseKeepsOrder(f: MakeHash, ops: seq<Op>, k: Hash, conn: seq<SignalPipe>, i: nat)
    requires Ascending(f, ops, k, conn) && i < |conn|
    ensures Ascending(f, ops, k, Erase(conn, i))
  {
  }

  lemma SweepRefines(f: MakeHash, ops: seq<Op>, k: Hash, m: SignalMap)
    requires |ops| > 0 && ops[|ops| - 1].DisconnectByHash?
    requires Refines(f, ops[..|ops| - 1], k, Pipes(m, k))
    ensures Refines(f, ops, k, Pipes(Apply(f, m, ops[|ops| - 1]), k))
  {
    var before, conn, receiver := ops[..|ops| - 1], Pipes(m, k), ops[|ops| - 1].receiver;
    if ops[|ops| - 1].key != k {
      OtherKeysRefine(f, ops, k, conn);
    } else {
      WithoutKeepsOthers(conn, receiver);
      WithoutKeepsOrder(f, before, k, conn, receiver);
      forall p | p in conn
        ensures Related(f, ops, k, f(p.callback)).Some? <==> p.receiver != receiver
      {
        assert Stands(f, before, k, p);
      }
      FewerRefines(f, ops, k, conn, Without(conn, receiver));
    }
  }

  lemma {:induction false} WithoutKeepsOthers(conn: seq<SignalPipe>, receiver: nat)
    ensures forall p :: p in Without(conn, receiver) <==> p in conn && p.receiver != receiver
  {
    if |conn| == 0 {
    } else {
      WithoutKeepsOthers(conn[1..], receiver);
    }
  }

  lemma {:induction false} WithoutKeepsOrder(f: MakeHash, ops: seq<Op>, k: Hash, conn: seq<SignalPipe>, receiver: nat)
    requires Ascending(f, ops, k, conn)
    ensures Ascending(f, ops, k, Without(conn, receiver))
  {
    if |conn| == 0 {
    } else {
      var rest := Without(conn[1..], receiver);
      WithoutKeepsOrder(f, ops, k, conn[1..], receiver);
      WithoutKeepsOthers(conn[1..], receiver);
      forall j | 0 <= j < |rest|
        ensures Since(f, ops, k, conn[0]) < Since(f, ops, k, rest[j])
      {
        assert rest[j] in rest;
      }
    }
  }

  /** The relation leaves no freedom: only one list refines it. */
  lemma OnlyOneListRefines(f: MakeHash, ops: seq<Op>, k: Hash, a: seq<SignalPipe>, b: seq<SignalPipe>)
    requires Refines(f, ops, k, a) && Refines(f, ops, k, b)
    ensures a == b
  {
    forall p: SignalPipe
      ensures p in a <==> p in b
    {
      assert p in a || p in b ==> Stands(f, ops, k, p);
    }
    SameMembersSameOrder(f, ops, k, a, b);
  }

  lemma FirstIsOldest(f: MakeHash, ops: seq<Op>, k: Hash, conn: seq<SignalPipe>, p: SignalPipe)
    requires Ascending(f, ops, k, conn) && p in conn
    ensures p == conn[0] || Since(f, ops, k, conn[0]) < Since(f, ops, k, p)
  {
  }

  lemma {:induction false} SameMembersSameOrder(f: MakeHash, ops: seq<Op>, k: Hash,
                                                a: seq<SignalPipe>, b: seq<SignalPipe>)
    requires Ascending(f, ops, k, a) && Ascending(f, ops, k, b)
    requires forall p :: p in a <==> p in b
    ensures a == b
  {
    assert |a| > 0 <==> |b| > 0 by {
      assert |a| > 0 ==> a[0] in a;
      assert |b| > 0 ==> b[0] in b;
    }
    if |a| > 0 {
      assert a[0] in a && b[0] in b;
      FirstIsOldest(f, ops, k, a, b[0]);
      FirstIsOldest(f, ops, k, b, a[0]);
      DistinctHashes(f, ops, k, a);
      DistinctHashes(f, ops, k, b);
      forall p: SignalPipe
        ensures p in a[1..] <==> p in b[1..]
      {
        assert p in a <==> p == a[0] || p in a[1..];
        assert p in b <==> p == b[0] || p in b[1..];
      }
      SameMembersSameOrder(f, ops, k, a[1..], b[1..]);
    }
  }

  // ---------------------------------------------------------------- results

  lemma ConnectedExactly(f: MakeHash, ops: seq<Op>, k: Hash, h: Hash)
    ensures var conn := Pipes(Run(f, ops), k);
            var i, e := Find(f, conn, h), Related(f, ops, k, h);
            (i < |conn| <==> e.Some?)
            && (i < |conn| ==> conn[i] == SignalPipe(e.value.receiver, e.value.callback))
  {
    StorageRefinesRelation(f, ops, k);
    var conn := Pipes(Run(f, ops), k);
    var i, e := Find(f, conn, h), Related(f, ops, k, h);
    if i < |conn| {
      assert Stands(f, ops, k, conn[i]);
    } else {
      assert forall p <- conn :: f(p.callback) != h;
    }
  }

  /** `disconnect` reports truly whether the two were connected. */
  lemma DisconnectReports(f: MakeHash, ops: seq<Op>, sig: Slot, slot: Slot)
    ensures Result(f, Run(f, ops), Disconnect(sig, slot)) <==> Connected(f, ops, f(sig), f(slot))
  {
    ConnectedExactly(f, ops, f(sig), f(slot));
  }

  /** A `connect` changes nothing exactly when that very callback stands already. */
  lemma ConnectIsIdleExactly(f: MakeHash, ops: seq<Op>, sig: Slot, slot: Slot)
    ensures var e := Related(f, ops, f(sig), f(slot));
            Apply(f, Run(f, ops), Connect(sig, slot)) == Run(f, ops) <==> e.Some? && e.value.callback == slot
  {
    var m, k := Run(f, ops), f(sig);
    ConnectedExactly(f, ops, k, f(slot));
    var conn := Pipes(m, k);
    var i := Find(f, conn, f(slot));
    if k in m && i < |conn| {
      assert conn[i].callback == slot ==> conn[i := conn[i].(callback := slot)] == conn;
      assert m[k := conn] == m;
      var m': SignalMap := Apply(f, m, Connect(sig, slot));
      assert m'[k][i].callback == slot;
    } else if k in m {
      assert |Apply(f, m, Connect(sig, slot))[k]| == |m[k]| + 1;
    }
  }

  ghost predicate NoCollisions(f: MakeHash, ops: seq<Op>, slot: Slot) {
    forall op <- ops :: op.Connect? && f(op.slot) == f(slot) ==> op.slot == slot
  }

  /** When no other callback of the run has the same hash, connecting again is idle. */
  lemma ReconnectIsIdle(f: MakeHash, ops: seq<Op>, sig: Slot, slot: Slot)
    requires NoCollisions(f, ops, slot)
    ensures Apply(f, Run(f, ops), Connect(sig, slot)) == Run(f, ops)
            <==> Result(f, Run(f, ops), Disconnect(sig, slot))
  {
    ConnectIsIdleExactly(f, ops, sig, slot);
    DisconnectReports(f, ops, sig, slot);
    CallbackWasConnected(f, ops, f(sig), slot);
  }

  lemma {:induction false} CallbackWasConnected(f: MakeHash, ops: seq<Op>, k: Hash, slot: Slot)
    requires NoCollisions(f, ops, slot)
    ensures var e := Related(f, ops, k, f(slot)); e.Some? ==> e.value.callback == slot
    decreases |ops|
  {
    if |ops| == 0 {
    } else {
      CallbackWasConnected(f, ops[..|ops| - 1], k, slot);
      assert ops[|ops| - 1] in ops;
    }
  }

  // ---------------------------------------------------------------- what one operation changes

  /** The one callback with that hash now replaced, or a new pipe comes last. */
  lemma ConnectChanges(f: MakeHash, m: SignalMap, sig: Slot, slot: Slot, k: Hash)
    ensures var was, now := Pipes(m, k), Pipes(Apply(f, m, Connect(sig, slot)), k);
            if f(sig) != k then now == was
            else if exists i :: 0 <= i < |was| && f(was[i].callback) == f(slot) then
              exists i :: 0 <= i < |was| == |now| && f(was[i].callback) == f(slot)
                          && (forall j :: 0 <= j < i ==> f(was[j].callback) != f(slot))
                          && now[i].receiver == was[i].receiver && now[i].callback == slot
                          && forall j :: 0 <= j < |was| && j != i ==> now[j] == was[j]
            else now == was + [SignalPipe(slot.receiver, slot)]
  {
    var was := Pipes(m, k);
    var i := Find(f, was, f(slot));
    if f(sig) == k && i < |was| {
      assert f(was[i].callback) == f(slot);
    }
  }

  lemma DisconnectChanges(f: MakeHash, m: SignalMap, sig: Slot, slot: Slot, k: Hash)
    ensures var was, now := Pipes(m, k), Pipes(Apply(f, m, Disconnect(sig, slot)), k);
            if f(sig) == k && exists i :: 0 <= i < |was| && f(was[i].callback) == f(slot) then
              exists i :: 0 <= i < |was| && f(was[i].callback) == f(slot) && now == was[..i] + was[i + 1..]
            else now == was
  {
    var was := Pipes(m, k);
    var i := Find(f, was, f(slot));
    if f(sig) == k && i < |was| {
      assert f(was[i].callback) == f(slot);
      assert |was| == 1 ==> was[..i] + was[i + 1..] == [];
    }
  }

  /** A sweep removes the pipes of the object and no others. */
  lemma SweepChanges(f: MakeHash, m: SignalMap, key: Hash, receiver: nat, k: Hash)
    ensures var was, now := Pipes(m, k), Pipes(Apply(f, m, DisconnectByHash(key, receiver)), k);
            if key != k then now == was
            else forall p :: p in now <==> p in was && p.receiver != receiver
  {
    WithoutKeepsOthers(Pipes(m, k), receiver);
  }

  predicate Connects(f: MakeHash, op: Op, k: Hash, h: Hash) {
    op.Connect? && f(op.sig) == k && f(op.slot) == h
  }

  predicate Disconnects(f: MakeHash, op: Op, k: Hash, h: Hash) {
    op.Disconnect? && f(op.sig) == k && f(op.slot) == h
  }

  /** Operation `n` connects, and no later one disconnects. */
  ghost predicate ConnectedAt(f: MakeHash, ops: seq<Op>, k: Hash, h: Hash, n: nat) {
    n < |ops| && Connects(f, ops[n], k, h) && forall j :: n < j < |ops| ==> !Disconnects(f, ops[j], k, h)
  }

  lemma ConnectedBefore(f: MakeHash, ops: seq<Op>, k: Hash, h: Hash, n: nat)
    requires n < |ops| - 1
    ensures ConnectedAt(f, ops, k, h, n) <==>
            ConnectedAt(f, ops[..|ops| - 1], k, h, n) && !Disconnects(f, ops[|ops| - 1], k, h)
  {
    var before := ops[..|ops| - 1];
    assert forall j :: 0 <= j < |before| ==> before[j] == ops[j];
  }

  /** Without sweeps of the signal: connected means that a connect was not followed by a
      disconnect. */
  lemma {:induction false} ConnectedByHistory(f: MakeHash, ops: seq<Op>, k: Hash, h: Hash)
    requires forall i :: 0 <= i < |ops| && ops[i].DisconnectByHash? ==> ops[i].key != k
    ensures Connected(f, ops, k, h) <==> exists n: nat :: ConnectedAt(f, ops, k, h, n)
    decreases |ops|
  {
    if |ops| == 0 {
    } else {
      var last := |ops| - 1;
      ConnectedByHistory(f, ops[..last], k, h);
      forall n: nat | n < last
        ensures ConnectedAt(f, ops, k, h, n)
                <==> ConnectedAt(f, ops[..last], k, h, n) && !Disconnects(f, ops[last], k, h)
      {
        ConnectedBefore(f, ops, k, h, n);
      }
      assert Connects(f, ops[last], k, h) ==> ConnectedAt(f, ops, k, h, last);
    }
  }

  /** A concrete run: two listeners stay in the order in which they came, also when the first
      connects again; leaving and coming back moves it to the end. */
  lemma OrderOfListeners(f: MakeHash, sig: Slot, a: Slot, b: Slot)
    requires f(a) != f(b)
    ensures var m := Apply(f, Apply(f, map[], Connect(sig, a)), Connect(sig, b));
            var pa, pb := SignalPipe(a.receiver, a), SignalPipe(b.receiver, b);
            m == map[f(sig) := [pa, pb]]
            && Apply(f, m, Connect(sig, a)) == m
            && Apply(f, Apply(f, m, Disconnect(sig, a)), Connect(sig, a)) == map[f(sig) := [pb, pa]]
            && Apply(f, Apply(f, m, Disconnect(sig, a)), Disconnect(sig, b)) == map[]
  {
    var pa, pb := SignalPipe(a.receiver, a), SignalPipe(b.receiver, b);
    var k := f(sig);
    var one, two: SignalMap := map[k := [pa]], map[k := [pa, pb]];
    assert Apply(f, map[], Connect(sig, a)) == one;
    assert Find(f, [pa], f(b)) == 1 && [pa] + [pb] == [pa, pb];
    assert Apply(f, one, Connect(sig, b)) == two;
    assert Find(f, [pa, pb], f(a)) == 0 && [pa, pb][0 := pa] == [pa, pb];
    assert Apply(f, two, Connect(sig, a)) == two;
    assert Erase([pa, pb], 0) == [pb];
    var left: SignalMap := map[k := [pb]];
    assert Apply(f, two, Disconnect(sig, a)) == left;
    assert Find(f, [pb], f(a)) == 1 && [pb] + [pa] == [pb, pa];
    assert Find(f, [pb], f(b)) == 0;
  }

  // ---------------------------------------------------------------- keys without pipes

  ghost predicate KeyWithoutPipes(m: SignalMap, k: Hash) {
    k in m && |m[k]| == 0
  }

  /** The operation sweeps the list of `k` empty. */
  ghost predicate Sweeps(m: SignalMap, k: Hash, op: Op) {
    op.DisconnectByHash? && op.key == k && k in m && |Without(m[k], op.receiver)| == 0
  }

  predicate ConnectsTo(f: MakeHash, op: Op, k: Hash) {
    op.Connect? && f(op.sig) == k
  }

  lemma OneStepLingers(f: MakeHash, m: SignalMap, k: Hash, op: Op)
    ensures KeyWithoutPipes(Apply(f, m, op), k) <==>
            Sweeps(m, k, op) || (KeyWithoutPipes(m, k) && !ConnectsTo(f, op, k))
  {
  }

  /** Operation `n` swept the list of `k` empty, and nothing was connected to `k` since. */
  ghost predicate SweptAt(f: MakeHash, ops: seq<Op>, k: Hash, n: nat) {
    n < |ops| && Sweeps(Run(f, ops[..n]), k, ops[n])
    && forall j :: n < j < |ops| ==> !ConnectsTo(f, ops[j], k)
  }

  lemma SweptBefore(f: MakeHash, ops: seq<Op>, k: Hash, n: nat)
    requires n < |ops| - 1
    ensures SweptAt(f, ops, k, n) <==>
            SweptAt(f, ops[..|ops| - 1], k, n) && !ConnectsTo(f, ops[|ops| - 1], k)
  {
    var before := ops[..|ops| - 1];
    assert before[..n] == ops[..n] && before[n] == ops[n];
    assert forall j :: n < j < |before| ==> before[j] == ops[j];
  }

  /** A key lingers without a list exactly when a sweep emptied it and no connect followed. */
  lemma {:induction false} KeyLingersExactly(f: MakeHash, ops: seq<Op>, k: Hash)
    ensures KeyWithoutPipes(Run(f, ops), k) <==> exists n: nat :: SweptAt(f, ops, k, n)
    decreases |ops|
  {
    if |ops| == 0 {
    } else {
      var last := |ops| - 1;
      KeyLingersExactly(f, ops[..last], k);
      OneStepLingers(f, Run(f, ops[..last]), k, ops[last]);
      forall n: nat | n < last
        ensures SweptAt(f, ops, k, n) <==> SweptAt(f, ops[..last], k, n) && !ConnectsTo(f, ops[last], k)
      {
        SweptBefore(f, ops, k, n);
      }
      assert SweptAt(f, ops, k, last) <==> Sweeps(Run(f, ops[..last]), k, ops[last]);
    }
  }

  /** Something is connected to the signal, or a sweep disconnected the last of it. */
  ghost predicate Present(f: MakeHash, ops: seq<Op>, k: Hash) {
    (exists h: Hash :: Connected(f, ops, k, h)) || exists n: nat :: SweptAt(f, ops, k, n)
  }

  /** The map has the key of a signal exactly then. */
  lemma PresentExactly(f: MakeHash, ops: seq<Op>, k: Hash)
    ensures k in Run(f, ops) <==> Present(f, ops, k)
  {
    KeyLingersExactly(f, ops, k);
    StorageRefinesRelation(f, ops, k);
    var conn := Pipes(Run(f, ops), k);
    if |conn| > 0 {
      assert Stands(f, ops, k, conn[0]);
      var h: Hash := f(conn[0].callback);
      assert Connected(f, ops, k, h);
    } else {
      forall h: Hash
        ensures !Connected(f, ops, k, h)
      {
        ConnectedExactly(f, ops, k, h);
      }
    }
  }

  /** Without sweeps of its list a key is present exactly when something is connected to it. */
  lemma KeyPresentExactly(f: MakeHash, ops: seq<Op>, k: Hash)
    requires forall op <- ops :: op.DisconnectByHash? ==> op.key != k
    ensures k in Run(f, ops) <==> exists h: Hash :: Connected(f, ops, k, h)
  {
    PresentExactly(f, ops, k);
    forall n: nat
      ensures !SweptAt(f, ops, k, n)
    {
      assert n < |ops| ==> ops[n] in ops;
    }
  }

  /** With a sweep it is not: the key stays although nothing is connected any more. */
  lemma SweepLeavesKey(f: MakeHash, sig: Slot, slot: Slot)
    ensures var ops := [Connect(sig, slot), DisconnectByHash(f(sig), slot.receiver)];
            f(sig) in Run(f, ops) && forall h: Hash :: !Connected(f, ops, f(sig), h)
  {
    var ops := [Connect(sig, slot), DisconnectByHash(f(sig), slot.receiver)];
    assert ops[..1] == [Connect(sig, slot)];
    assert Run(f, ops[..1]) == map[f(sig) := [SignalPipe(slot.receiver, slot)]] by {
      assert ops[..1][..0] == [];
    }
    forall h: Hash
      ensures !Connected(f, ops, f(sig), h)
    {
      assert ops[..1][..0] == [];
      assert Related(f, ops[..1], f(sig), h).Some? ==> Related(f, ops[..1], f(sig), h).value.receiver == slot.receiver;
    }
  }
}
