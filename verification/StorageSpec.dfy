// The key/value store of pair_server/storage.c seen as a value: 4096 slots, each a head
// that may be dead and a chain of overflow entries, and a running size.  The heap version
// in Storage.dfy is proved against these functions; what the store promises is proved here.
module StorageSpec {
  import opened Wrappers

  const TABLE_SIZE := 4096

  type Bucket = n: nat | n < TABLE_SIZE

  type Hash = string -> Bucket

  type UserId = n: nat | n < 0x1_0000_0000

  datatype Ident = Ident(key: string, user: UserId)

  datatype Entry = Entry(id: Ident, value: string)

  // A dead head keeps its last entry: deletion only clears the live flag.
  datatype Slot = Slot(live: bool, head: Entry, chain: seq<Entry>)

  datatype Table = Table(slots: seq<Slot>, size: int)

  datatype Op = Insert(id: Ident, value: string) | Delete(id: Ident)

  // ---------- one slot ----------

  function Find(chain: seq<Entry>, id: Ident): (i: nat)
    ensures i <= |chain|
    ensures i < |chain| ==> chain[i].id == id
    ensures forall j :: 0 <= j < i ==> chain[j].id != id
  {
    if chain == [] || chain[0].id == id then 0 else 1 + Find(chain[1..], id)
  }

  predicate HeadIs(s: Slot, id: Ident) {
    s.live && s.head.id == id
  }

  predicate InChain(s: Slot, id: Ident) {
    Find(s.chain, id) < |s.chain|
  }

  function ChainLookup(s: Slot, id: Ident): Option<string> {
    if InChain(s, id) then Some(s.chain[Find(s.chain, id)].value) else None
  }

  function SlotLookup(s: Slot, id: Ident): Option<string> {
    if HeadIs(s, id) then Some(s.head.value) else ChainLookup(s, id)
  }

  function SlotInsert(s: Slot, id: Ident, value: string): Slot {
    var e := Entry(id, value);
    if !s.live || s.head.id == id then s.(live := true, head := e)
    else
      var i := Find(s.chain, id);
      s.(chain := if i < |s.chain| then s.chain[i := e] else s.chain + [e])
  }

  function SlotDelete(s: Slot, id: Ident): Slot {
    if HeadIs(s, id) then s.(live := false)
    else
      var i := Find(s.chain, id);
      if i < |s.chain| then s.(chain := s.chain[..i] + s.chain[i + 1..]) else s
  }

  function LiveCells(s: Slot): nat {
    (if s.live then 1 else 0) + |s.chain|
  }

  // The key is live twice: in the head and again in the chain behind it.
  predicate SlotShadowed(s: Slot, id: Ident) {
    HeadIs(s, id) && InChain(s, id)
  }

  ghost predicate Distinct(chain: seq<Entry>) {
    forall i, j :: 0 <= i < j < |chain| ==> chain[i].id != chain[j].id
  }

  ghost predicate SlotOk(hash: Hash, h: nat, s: Slot) {
    && (s.live ==> hash(s.head.id.key) == h)
    && (forall i :: 0 <= i < |s.chain| ==> hash(s.chain[i].id.key) == h)
    && Distinct(s.chain)
  }

  // ---------- the table ----------

  function Total(slots: seq<Slot>): nat {
    if slots == [] then 0 else LiveCells(slots[0]) + Total(slots[1..])
  }

  ghost predicate Valid(hash: Hash, t: Table) {
    && |t.slots| == TABLE_SIZE
    && (forall h :: 0 <= h < TABLE_SIZE ==> SlotOk(hash, h, t.slots[h]))
    && t.size == Total(t.slots)
  }

  function Empty(): Table {
    Table(seq(TABLE_SIZE, _ => Slot(false, Entry(Ident("", 0), ""), [])), 0)
  }

  function Lookup(hash: Hash, t: Table, id: Ident): Option<string>
    requires |t.slots| == TABLE_SIZE
  {
    SlotLookup(t.slots[hash(id.key)], id)
  }

  predicate Shadowed(hash: Hash, t: Table, id: Ident)
    requires |t.slots| == TABLE_SIZE
  {
    SlotShadowed(t.slots[hash(id.key)], id)
  }

  function Put(t: Table, h: nat, s: Slot): Table
    requires h < |t.slots|
  {
    Table(t.slots[h := s], t.size + LiveCells(s) - LiveCells(t.slots[h]))
  }

  function InsertItem(hash: Hash, t: Table, id: Ident, value: string): (r: Table)
    requires |t.slots| == TABLE_SIZE
    ensures |r.slots| == TABLE_SIZE
  {
    var h := hash(id.key);
    Put(t, h, SlotInsert(t.slots[h], id, value))
  }

  function DeleteItem(hash: Hash, t: Table, id: Ident): (r: Table)
    requires |t.slots| == TABLE_SIZE
    ensures |r.slots| == TABLE_SIZE
  {
    var h := hash(id.key);
    Put(t, h, SlotDelete(t.slots[h], id))
  }

  // What a read reports: the status, the copied text, and the byte count when one is written.
  datatype Got = Got(err: int, out: Option<string>, written: Option<nat>)

  // A hit behind the head reports the byte count of the head's text, not of its own.
  function GetItem(hash: Hash, t: Table, id: Ident, room: nat): Got
    requires |t.slots| == TABLE_SIZE
  {
    var s := t.slots[hash(id.key)];
    var count := Some(|s.head.value| + 1);
    match SlotLookup(s, id)
    case None => Got(-1, None, None)
    case Some(v) =>
      if room > |v| then Got(0, Some(v), count)
      else Got(-1, None, if HeadIs(s, id) then count else None)
  }

  function Apply(hash: Hash, t: Table, op: Op): (r: Table)
    requires |t.slots| == TABLE_SIZE
    ensures |r.slots| == TABLE_SIZE
  {
    match op
    case Insert(id, value) => InsertItem(hash, t, id, value)
    case Delete(id) => DeleteItem(hash, t, id)
  }

  // The table after running a sequence of operations from the zeroed table.
  function Run(hash: Hash, ops: seq<Op>): (r: Table)
    ensures |r.slots| == TABLE_SIZE
  {
    if ops == [] then Empty()
    else Apply(hash, Run(hash, ops[..|ops| - 1]), ops[|ops| - 1])
  }

  // ---------- the map the table stands for ----------

  function SlotIds(s: Slot): set<Ident> {
    (if s.live then {s.head.id} else {}) + (set i | 0 <= i < |s.chain| :: s.chain[i].id)
  }

  function Ids(slots: seq<Slot>): set<Ident> {
    if slots == [] then {} else SlotIds(slots[0]) + Ids(slots[1..])
  }

  function View(hash: Hash, t: Table): map<Ident, string>
    requires |t.slots| == TABLE_SIZE
  {
    map id | id in Ids(t.slots) && Lookup(hash, t, id).Some? :: Lookup(hash, t, id).value
  }

  function Shadows(slots: seq<Slot>): set<Ident> {
    if slots == [] then {}
    else (if slots[0].live && InChain(slots[0], slots[0].head.id) then {slots[0].head.id} else {}) + Shadows(slots[1..])
  }

  // ---------- proofs about one slot ----------

  lemma FindMeansMember(chain: seq<Entry>, id: Ident)
    ensures Find(chain, id) < |chain| <==> exists i :: 0 <= i < |chain| && chain[i].id == id
  {
  }

  lemma FindUnique(chain: seq<Entry>, id: Ident, i: nat)
    requires Distinct(chain) && i < |chain| && chain[i].id == id
    ensures Find(chain, id) == i
  {
  }

  lemma FindFirst(chain: seq<Entry>, id: Ident, i: nat)
    requires i < |chain| && chain[i].id == id && forall j :: 0 <= j < i ==> chain[j].id != id
    ensures Find(chain, id) == i
  {
  }

  lemma RunStep(hash: Hash, ops: seq<Op>, op: Op)
    ensures Run(hash, ops + [op]) == Apply(hash, Run(hash, ops), op)
  {
    assert (ops + [op])[..|ops|] == ops;
  }

  lemma ApplyElsewhere(hash: Hash, t: Table, op: Op)
    requires |t.slots| == TABLE_SIZE
    ensures forall k :: 0 <= k < TABLE_SIZE && k != hash(op.id.key) ==> Apply(hash, t, op).slots[k] == t.slots[k]
  {
  }

  // Looking any key up in an overwritten or extended slot.
  lemma SlotInsertLookup(s: Slot, id: Ident, value: string, q: Ident)
    requires Distinct(s.chain)
    ensures SlotLookup(SlotInsert(s, id, value), q) == if q == id then Some(value) else SlotLookup(s, q)
    ensures Distinct(SlotInsert(s, id, value).chain)
  {
    var r := SlotInsert(s, id, value);
    if s.live && s.head.id != id {
      var i := Find(s.chain, id);
      assert r.chain[i] == Entry(id, value);
      FindUnique(r.chain, id, i);
      var j := Find(s.chain, q);
      if q != id {
        if j < |s.chain| {
          assert r.chain[j] == s.chain[j];
          FindUnique(r.chain, q, j);
        } else {
          FindMeansMember(r.chain, q);
        }
      }
    }
  }

  // Cutting one entry out of a chain of distinct keys.
  lemma CutFind(chain: seq<Entry>, i: nat, q: Ident)
    requires Distinct(chain) && i < |chain|
    ensures var r := chain[..i] + chain[i + 1..];
            var j := Find(chain, q);
            && Distinct(r)
            && (q == chain[i].id || j == |chain| ==> Find(r, q) == |r|)
            && (q != chain[i].id && j < |chain| ==> Find(r, q) < |r| && r[Find(r, q)] == chain[j])
  {
    var r := chain[..i] + chain[i + 1..];
    CutEntries(chain, i);
    var j := Find(chain, q);
    if q != chain[i].id && j < |chain| {
      var k := if j < i then j else j - 1;
      assert r[k] == chain[j];
      FindUnique(r, q, k);
    } else {
      NotFound(r, q);
    }
  }

  lemma NotFound(chain: seq<Entry>, id: Ident)
    requires forall k :: 0 <= k < |chain| ==> chain[k].id != id
    ensures Find(chain, id) == |chain|
  {
  }

  lemma CutEntries(chain: seq<Entry>, i: nat)
    requires Distinct(chain) && i < |chain|
    ensures var r := chain[..i] + chain[i + 1..];
            Distinct(r) && forall k :: 0 <= k < |r| ==> r[k] == chain[if k < i then k else k + 1]
  {
  }

  // What a slot answers after a deletion: the key itself falls back to its chain entry when the
  // live head shadowed one, and every other key keeps its answer.
  lemma SlotDeleteLookup(s: Slot, id: Ident, q: Ident)
    requires Distinct(s.chain)
    ensures Distinct(SlotDelete(s, id).chain)
    ensures SlotLookup(SlotDelete(s, id), q) ==
            if q != id then SlotLookup(s, q)
            else if SlotShadowed(s, id) then Some(s.chain[Find(s.chain, id)].value)
            else None
  {
    if !HeadIs(s, id) && InChain(s, id) {
      CutFind(s.chain, Find(s.chain, id), q);
    }
  }

  lemma SlotLookupMember(s: Slot, q: Ident)
    ensures SlotLookup(s, q).Some? <==> q in SlotIds(s)
  {
    FindMeansMember(s.chain, q);
  }

  // ---------- proofs about sequences of slots ----------

  lemma {:induction false} TotalUpdate(slots: seq<Slot>, h: nat, s: Slot)
    requires h < |slots|
    ensures Total(slots[h := s]) == Total(slots) - LiveCells(slots[h]) + LiveCells(s)
  {
    if h == 0 {
      assert slots[h := s][1..] == slots[1..];
    } else {
      assert slots[h := s][1..] == slots[1..][h - 1 := s];
      TotalUpdate(slots[1..], h - 1, s);
    }
  }

  lemma {:induction false} IdsMember(slots: seq<Slot>, id: Ident)
    ensures id in Ids(slots) <==> exists h :: 0 <= h < |slots| && id in SlotIds(slots[h])
  {
    if slots != [] {
      IdsMember(slots[1..], id);
      if id in Ids(slots[1..]) {
        var h :| 0 <= h < |slots[1..]| && id in SlotIds(slots[1..][h]);
        assert slots[h + 1] == slots[1..][h];
      }
      if h :| 0 <= h < |slots| && id in SlotIds(slots[h]) {
        if h > 0 {
          assert slots[1..][h - 1] == slots[h];
        }
      }
    }
  }

  // A key is in the view exactly when its own bucket answers for it.
  lemma ViewMember(hash: Hash, t: Table, id: Ident)
    requires |t.slots| == TABLE_SIZE
    ensures id in View(hash, t) <==> Lookup(hash, t, id).Some?
    ensures id in View(hash, t) ==> View(hash, t)[id] == Lookup(hash, t, id).value
  {
    IdsMember(t.slots, id);
    SlotLookupMember(t.slots[hash(id.key)], id);
  }

  lemma PutValid(hash: Hash, t: Table, h: nat, s: Slot)
    requires Valid(hash, t) && h < TABLE_SIZE && SlotOk(hash, h, s)
    ensures Valid(hash, Put(t, h, s))
  {
    TotalUpdate(t.slots, h, s);
  }

  lemma InsertKeepsSlot(hash: Hash, s: Slot, id: Ident, value: string)
    requires SlotOk(hash, hash(id.key), s)
    ensures SlotOk(hash, hash(id.key), SlotInsert(s, id, value))
  {
    SlotInsertLookup(s, id, value, id);
  }

  lemma DeleteKeepsSlot(hash: Hash, s: Slot, id: Ident)
    requires SlotOk(hash, hash(id.key), s)
    ensures SlotOk(hash, hash(id.key), SlotDelete(s, id))
  {
    SlotDeleteLookup(s, id, id);
  }

  // ---------- main results ----------

  // Every operation keeps the table well formed, and the counter counts the live cells.
  lemma ApplyValid(hash: Hash, t: Table, op: Op)
    requires Valid(hash, t)
    ensures Valid(hash, Apply(hash, t, op))
  {
    var h := hash(op.id.key);
    match op
    case Insert(id, value) =>
      InsertKeepsSlot(hash, t.slots[h], id, value);
      PutValid(hash, t, h, SlotInsert(t.slots[h], id, value));
    case Delete(id) =>
      DeleteKeepsSlot(hash, t.slots[h], id);
      PutValid(hash, t, h, SlotDelete(t.slots[h], id));
  }

  lemma {:induction false} TotalOfDead(slots: seq<Slot>)
    requires forall h :: 0 <= h < |slots| ==> !slots[h].live && slots[h].chain == []
    ensures Total(slots) == 0
  {
    if slots != [] {
      TotalOfDead(slots[1..]);
    }
  }

  // Every reachable table is well formed.
  lemma {:induction false} RunValid(hash: Hash, ops: seq<Op>)
    ensures Valid(hash, Run(hash, ops))
  {
    if ops == [] {
      TotalOfDead(Empty().slots);
    } else {
      RunValid(hash, ops[..|ops| - 1]);
      ApplyValid(hash, Run(hash, ops[..|ops| - 1]), ops[|ops| - 1]);
    }
  }

  // Insertion is exactly map update, whether it hits the head, the chain, a dead head or the end.
  lemma InsertIsUpdate(hash: Hash, t: Table, id: Ident, value: string)
    requires Valid(hash, t)
    ensures View(hash, InsertItem(hash, t, id, value)) == View(hash, t)[id := value]
  {
    var r := InsertItem(hash, t, id, value);
    forall q
      ensures Lookup(hash, r, q) == if q == id then Some(value) else Lookup(hash, t, q)
    {
      SlotInsertLookup(t.slots[hash(id.key)], id, value, q);
    }
    forall q
      ensures q in View(hash, r) <==> q in View(hash, t)[id := value]
      ensures q in View(hash, r) ==> View(hash, r)[q] == View(hash, t)[id := value][q]
    {
      ViewMember(hash, r, q);
      ViewMember(hash, t, q);
    }
  }

  lemma DeleteLookup(hash: Hash, t: Table, id: Ident, q: Ident)
    requires Valid(hash, t)
    ensures var r := DeleteItem(hash, t, id);
            q in View(hash, r) <==> if q == id then Shadowed(hash, t, id) else q in View(hash, t)
    ensures var r := DeleteItem(hash, t, id);
            q != id && q in View(hash, t) ==> q in View(hash, r) && View(hash, r)[q] == View(hash, t)[q]
  {
    SlotDeleteLookup(t.slots[hash(id.key)], id, q);
    ViewMember(hash, DeleteItem(hash, t, id), q);
    ViewMember(hash, t, q);
  }

  lemma SameOutside(a: map<Ident, string>, b: map<Ident, string>, id: Ident)
    requires forall q :: q != id ==> (q in a <==> q in b)
    requires forall q :: q != id && q in b ==> q in a && a[q] == b[q]
    ensures a - {id} == b - {id}
    ensures a == b - {id} <==> id !in a
  {
    if id !in a {
      assert a == a - {id};
    }
  }

  // Deletion is exactly map removal if and only if the key is not shadowed; all other keys are
  // untouched either way.
  lemma DeleteIsRemovalIffUnshadowed(hash: Hash, t: Table, id: Ident)
    requires Valid(hash, t)
    ensures View(hash, DeleteItem(hash, t, id)) == View(hash, t) - {id} <==> !Shadowed(hash, t, id)
    ensures View(hash, DeleteItem(hash, t, id)) - {id} == View(hash, t) - {id}
  {
    var after, before := View(hash, DeleteItem(hash, t, id)), View(hash, t);
    forall q
      ensures q in after <==> if q == id then Shadowed(hash, t, id) else q in before
      ensures q != id && q in before ==> q in after && after[q] == before[q]
    {
      DeleteLookup(hash, t, id, q);
    }
    SameOutside(after, before, id);
  }

  lemma InsertShadows(s: Slot, op: Ident, value: string, id: Ident)
    requires Distinct(s.chain) && !SlotShadowed(s, id)
    ensures SlotShadowed(SlotInsert(s, op, value), id) <==> op == id && !s.live && InChain(s, id)
  {
    FindMeansMember(s.chain, id);
    FindMeansMember(SlotInsert(s, op, value).chain, id);
  }

  lemma DeleteShadows(s: Slot, op: Ident, id: Ident)
    requires Distinct(s.chain) && !SlotShadowed(s, id)
    ensures !SlotShadowed(SlotDelete(s, op), id)
  {
    FindMeansMember(s.chain, id);
    FindMeansMember(SlotDelete(s, op).chain, id);
  }

  // A second live cell for a key appears exactly by inserting that key through a vacated head
  // whose chain already holds it.
  lemma ShadowBorn(hash: Hash, t: Table, op: Op, id: Ident)
    requires Valid(hash, t) && !Shadowed(hash, t, id)
    ensures Shadowed(hash, Apply(hash, t, op), id) <==>
            op.Insert? && op.id == id && !t.slots[hash(id.key)].live && InChain(t.slots[hash(id.key)], id)
  {
    var s := t.slots[hash(id.key)];
    assert SlotOk(hash, hash(id.key), s);
    if hash(op.id.key) == hash(id.key) {
      match op
      case Insert(i, value) => InsertShadows(s, i, value, id);
      case Delete(i) => DeleteShadows(s, i, id);
    }
  }

  // A read succeeds exactly when the map holds the key and its text fits, and then returns it.
  // The byte count it reports is right exactly for a head hit or a head text of equal length.
  lemma GetReadsView(hash: Hash, t: Table, id: Ident, room: nat)
    requires |t.slots| == TABLE_SIZE
    ensures var m := View(hash, t);
            var g := GetItem(hash, t, id, room);
            && (g.err == 0 <==> id in m && |m[id]| < room)
            && (g.err == 0 ==> g.out == Some(m[id]))
            && (g.err != 0 ==> g.err == -1 && g.out.None?)
            && g.written == (if g.err == 0 || HeadIs(t.slots[hash(id.key)], id)
                             then Some(|t.slots[hash(id.key)].head.value| + 1) else None)
            && (g.err == 0 ==>
                  (g.written == Some(|m[id]| + 1) <==>
                   HeadIs(t.slots[hash(id.key)], id) || |t.slots[hash(id.key)].head.value| == |m[id]|))
  {
    ViewMember(hash, t, id);
  }

  // ---------- the counter ----------

  lemma {:induction false} ChainCount(chain: seq<Entry>)
    requires Distinct(chain)
    ensures |set i | 0 <= i < |chain| :: chain[i].id| == |chain|
  {
    var all := set i | 0 <= i < |chain| :: chain[i].id;
    if chain == [] {
      assert all == {};
    } else {
      var n := |chain| - 1;
      var front := chain[..n];
      var rest := set i | 0 <= i < |front| :: front[i].id;
      ChainCount(front);
      assert forall i :: 0 <= i < n ==> front[i] == chain[i];
      assert all == rest + {chain[n].id};
    }
  }

  lemma SlotCount(s: Slot)
    requires Distinct(s.chain)
    ensures LiveCells(s) == |SlotIds(s)| + if s.live && InChain(s, s.head.id) then 1 else 0
  {
    ChainCount(s.chain);
    FindMeansMember(s.chain, s.head.id);
    var c := set i | 0 <= i < |s.chain| :: s.chain[i].id;
    if s.live && InChain(s, s.head.id) {
      assert SlotIds(s) == c;
    } else if s.live {
      assert SlotIds(s) == c + {s.head.id};
    } else {
      assert SlotIds(s) == c;
    }
  }

  lemma {:induction false} SlotsCount(hash: Hash, slots: seq<Slot>, base: nat)
    requires forall h :: 0 <= h < |slots| ==> SlotOk(hash, base + h, slots[h])
    ensures forall id :: id in Ids(slots) ==> hash(id.key) >= base
    ensures Shadows(slots) <= Ids(slots)
    ensures Total(slots) == |Ids(slots)| + |Shadows(slots)|
  {
    if slots != [] {
      var s, rest := slots[0], slots[1..];
      SlotsCount(hash, rest, base + 1);
      SlotCount(s);
      assert SlotOk(hash, base, s);
      assert forall id :: id in SlotIds(s) ==> hash(id.key) == base;
      assert SlotIds(s) !! Ids(rest);
      assert |SlotIds(s) + Ids(rest)| == |SlotIds(s)| + |Ids(rest)|;
      var one := if s.live && InChain(s, s.head.id) then {s.head.id} else {};
      assert one <= SlotIds(s);
      assert one !! Shadows(rest);
      assert |one + Shadows(rest)| == |one| + |Shadows(rest)|;
    }
  }

  lemma {:induction false} ShadowsMember(hash: Hash, slots: seq<Slot>, base: nat, id: Ident)
    requires forall h :: 0 <= h < |slots| ==> SlotOk(hash, base + h, slots[h])
    ensures id in Shadows(slots) <==>
            base <= hash(id.key) < base + |slots| && SlotShadowed(slots[hash(id.key) - base], id)
  {
    if slots != [] {
      ShadowsMember(hash, slots[1..], base + 1, id);
      assert SlotOk(hash, base, slots[0]);
    }
  }

  lemma ViewKeys(hash: Hash, t: Table)
    requires |t.slots| == TABLE_SIZE
    requires forall h :: 0 <= h < TABLE_SIZE ==> SlotOk(hash, h, t.slots[h])
    ensures View(hash, t).Keys == Ids(t.slots)
  {
    forall id
      ensures id in View(hash, t).Keys <==> id in Ids(t.slots)
    {
      IdsMember(t.slots, id);
      if h :| 0 <= h < TABLE_SIZE && id in SlotIds(t.slots[h]) {
        assert SlotOk(hash, h, t.slots[h]);
      }
      SlotLookupMember(t.slots[hash(id.key)], id);
    }
  }

  lemma TableCount(hash: Hash, t: Table)
    requires Valid(hash, t)
    ensures t.size == |View(hash, t).Keys| + |Shadows(t.slots)|
  {
    SlotsCount(hash, t.slots, 0);
    ViewKeys(hash, t);
  }

  lemma TableShadows(hash: Hash, t: Table, id: Ident)
    requires Valid(hash, t)
    ensures id in Shadows(t.slots) <==> Shadowed(hash, t, id)
  {
    ShadowsMember(hash, t.slots, 0, id);
  }

  // In every reachable table the counter equals the distinct keys plus the shadowed ones, so it
  // is the size of the map exactly when nothing is shadowed.
  lemma SizeCountsKeysAndShadows(hash: Hash, ops: seq<Op>)
    ensures var t := Run(hash, ops);
            && t.size == |View(hash, t).Keys| + |Shadows(t.slots)|
            && forall id :: id in Shadows(t.slots) <==> Shadowed(hash, t, id)
  {
    var t := Run(hash, ops);
    RunValid(hash, ops);
    TableCount(hash, t);
    forall id
      ensures id in Shadows(t.slots) <==> Shadowed(hash, t, id)
    {
      TableShadows(hash, t, id);
    }
  }

  // ---------- whole runs against a plain map ----------

  function MapRun(ops: seq<Op>): map<Ident, string> {
    if ops == [] then map[]
    else
      var m := MapRun(ops[..|ops| - 1]);
      match ops[|ops| - 1]
      case Insert(id, value) => m[id := value]
      case Delete(id) => m - {id}
  }

  // No deletion of the run meets a shadowed key.
  ghost predicate NoShadowedDelete(hash: Hash, ops: seq<Op>) {
    forall k :: 0 <= k < |ops| && ops[k].Delete? ==> !Shadowed(hash, Run(hash, ops[..k]), ops[k].id)
  }

  // A run behaves like a plain map as long as no deletion meets a shadowed key.
  lemma {:induction false} RunRefinesMap(hash: Hash, ops: seq<Op>)
    requires NoShadowedDelete(hash, ops)
    ensures View(hash, Run(hash, ops)) == MapRun(ops)
  {
    if ops == [] {
      forall id {
        ViewMember(hash, Empty(), id);
      }
    } else {
      var front, op := ops[..|ops| - 1], ops[|ops| - 1];
      forall k | 0 <= k < |front|
        ensures front[..k] == ops[..k]
      {
      }
      RunRefinesMap(hash, front);
      RunValid(hash, front);
      match op
      case Insert(id, value) => InsertIsUpdate(hash, Run(hash, front), id, value);
      case Delete(id) => DeleteIsRemovalIffUnshadowed(hash, Run(hash, front), id);
    }
  }

  ghost predicate Agrees(hash: Hash, ops: seq<Op>) {
    View(hash, Run(hash, ops)) == MapRun(ops)
  }

  // The first deletion of a shadowed key breaks the agreement.
  lemma ShadowedDeleteDeparts(hash: Hash, ops: seq<Op>, k: nat)
    requires k < |ops| && ops[k].Delete? && Shadowed(hash, Run(hash, ops[..k]), ops[k].id)
    ensures !Agrees(hash, ops[..k]) || !Agrees(hash, ops[..k + 1])
  {
    var front, id := ops[..k], ops[k].id;
    assert ops[..k + 1][..k] == front;
    RunValid(hash, front);
    DeleteIsRemovalIffUnshadowed(hash, Run(hash, front), id);
    assert MapRun(ops[..k + 1]) == MapRun(front) - {id};
    assert Run(hash, ops[..k + 1]) == DeleteItem(hash, Run(hash, front), id);
  }

  lemma PrefixUnshadowed(hash: Hash, ops: seq<Op>, k: nat)
    requires NoShadowedDelete(hash, ops) && k <= |ops|
    ensures NoShadowedDelete(hash, ops[..k])
  {
    forall j | 0 <= j < k
      ensures ops[..k][..j] == ops[..j]
    {
    }
  }

  // At every point of a run the table agrees with the map if and only if no deletion met a
  // shadowed key on the way.
  lemma RunIsMapIff(hash: Hash, ops: seq<Op>)
    ensures (forall k :: 0 <= k <= |ops| ==> Agrees(hash, ops[..k])) <==> NoShadowedDelete(hash, ops)
  {
    if NoShadowedDelete(hash, ops) {
      forall k | 0 <= k <= |ops|
        ensures Agrees(hash, ops[..k])
      {
        PrefixUnshadowed(hash, ops, k);
        RunRefinesMap(hash, ops[..k]);
      }
    } else {
      var k :| 0 <= k < |ops| && ops[k].Delete? && Shadowed(hash, Run(hash, ops[..k]), ops[k].id);
      ShadowedDeleteDeparts(hash, ops, k);
    }
  }

  // The smallest run that departs from a plain map: two keys of one bucket, the first deleted so
  // that the head is vacant, the second reinserted through it and then deleted.
  lemma ShadowedDeleteResurrects(hash: Hash, a: Ident, b: Ident, first: string, second: string)
    requires a != b && hash(a.key) == hash(b.key)
    ensures var ops := [Insert(a, ""), Insert(b, first), Delete(a), Insert(b, second), Delete(b)];
            && Lookup(hash, Run(hash, ops), b) == Some(first)
            && b !in MapRun(ops)
  {
    var ops := [Insert(a, ""), Insert(b, first), Delete(a), Insert(b, second), Delete(b)];
    var h := hash(a.key);
    var t0 := Empty();
    var t1 := InsertItem(hash, t0, a, "");
    var t2 := InsertItem(hash, t1, b, first);
    var t3 := DeleteItem(hash, t2, a);
    var t4 := InsertItem(hash, t3, b, second);
    assert t2.slots[h].chain == [Entry(b, first)];
    assert ops[..1] == [ops[0]] && ops[..2] == [ops[0], ops[1]] && ops[..3] == [ops[0], ops[1], ops[2]]
        && ops[..4] == [ops[0], ops[1], ops[2], ops[3]];
    assert ops[..1][..0] == [] && ops[..2][..1] == ops[..1] && ops[..3][..2] == ops[..2] && ops[..4][..3] == ops[..3];
    assert Run(hash, ops[..1]) == t1;
    assert Run(hash, ops[..2]) == t2;
    assert Run(hash, ops[..3]) == t3;
    assert Run(hash, ops[..4]) == t4;
  }
}
