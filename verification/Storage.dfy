// pair_server/storage.c on the heap: 4096 head cells that stay in place and overflow cells that
// are linked, relinked and dropped.  Every operation is proved against StorageSpec.
module Storage {
  import opened Wrappers
  import opened StorageSpec

  class Cell {
    var initCell: bool
    var userId: UserId
    var next: Cell?
    var prev: Cell?
    var key: string
    var value: string
    ghost var bucket: nat  // the bucket the cell was linked into

    constructor ()
      ensures !initCell && next == null && prev == null && key == "" && value == "" && userId == 0
    {
      initCell, userId, next, prev, key, value := false, 0, null, null, "", "";
    }

    ghost function Id(): Ident
      reads this
    {
      Ident(key, userId)
    }
  }

  // The cell at a position, null past either end.
  ghost function At(cells: seq<Cell>, i: int): Cell? {
    if 0 <= i < |cells| then cells[i] else null
  }

  // The cells of one bucket in link order: the links mirror each other and no cell occurs twice.
  ghost predicate Linked(h: nat, cells: seq<Cell>)
    reads cells
  {
    && (forall i :: 0 <= i < |cells| ==> cells[i].bucket == h)
    && (forall i, j :: 0 <= i < j < |cells| ==> cells[i] != cells[j])
    && (forall i {:trigger cells[i].next} :: 0 <= i < |cells| ==> cells[i].next == At(cells, i + 1))
    && (forall i {:trigger cells[i].prev} :: 0 <= i < |cells| ==> cells[i].prev == At(cells, i - 1))
  }

  // The cells carry the entries of the slot.
  ghost predicate Holds(cells: seq<Cell>, s: Slot)
    requires |cells| == |s.chain| + 1
    reads cells
  {
    && cells[0].initCell == s.live
    && s.head == Entry(Ident(cells[0].key, cells[0].userId), cells[0].value)
    && (forall i :: 1 <= i < |cells| ==>
          s.chain[i - 1] == Entry(Ident(cells[i].key, cells[i].userId), cells[i].value))
  }

  ghost predicate BucketOk(h: nat, head: Cell, cells: seq<Cell>, s: Slot)
    reads cells
  {
    |cells| == |s.chain| + 1 && cells[0] == head && Linked(h, cells) && Holds(cells, s)
  }

  const BLANK := Entry(Ident("", 0), "")

  // The slot after the i-th cell of the bucket has been filled.
  ghost function Filled(s: Slot, i: nat, e: Entry): Slot
    requires i <= |s.chain|
  {
    if i == 0 then s.(live := true, head := e) else s.(chain := s.chain[i - 1 := e])
  }

  // Writes key, user and value into a cell of the bucket.
  method Fill(ghost h: nat, ghost head: Cell, ghost cells: seq<Cell>, ghost s: Slot, ghost i: nat,
              current: Cell, key: string, value: string, user: UserId)
    requires BucketOk(h, head, cells, s) && i < |cells| && current == cells[i]
    modifies current
    ensures BucketOk(h, head, cells, Filled(s, i, Entry(Ident(key, user), value)))
  {
    current.initCell := true;
    current.userId := user;
    current.key := key;
    current.value := value;
  }

  // Links a zeroed cell behind the last one.
  method LinkCell(ghost h: nat, ghost cells: seq<Cell>, last: Cell) returns (c: Cell)
    requires Linked(h, cells) && cells != [] && last == cells[|cells| - 1]
    modifies last`next
    ensures fresh(c) && Linked(h, cells + [c])
    ensures !c.initCell && c.key == "" && c.userId == 0 && c.value == ""
  {
    c := new Cell();
    c.bucket := h;
    last.next := c;
    c.prev := last;
  }

  method Link(ghost h: nat, ghost head: Cell, ghost cells: seq<Cell>, ghost s: Slot, last: Cell) returns (c: Cell)
    requires BucketOk(h, head, cells, s) && last == cells[|cells| - 1]
    modifies last
    ensures fresh(c) && BucketOk(h, head, cells + [c], s.(chain := s.chain + [BLANK]))
  {
    c := LinkCell(h, cells, last);
    assert Holds(cells, s);
  }

  // Drops a live head: only its flag changes.
  method Vacate(ghost h: nat, head: Cell, ghost cells: seq<Cell>, ghost s: Slot)
    requires BucketOk(h, head, cells, s)
    modifies head
    ensures BucketOk(h, head, cells, s.(live := false))
  {
    head.initCell := false;
  }

  // Joins the neighbours of the i-th cell.
  method Relink(ghost h: nat, ghost cells: seq<Cell>, ghost i: nat, current: Cell)
    requires Linked(h, cells) && 0 < i < |cells| && current == cells[i]
    modifies (set c | c in cells)`next, (set c | c in cells)`prev
    ensures Linked(h, cells[..i] + cells[i + 1..])
  {
    ghost var rest := cells[..i] + cells[i + 1..];
    assert forall k :: 0 <= k < |rest| ==> rest[k] == cells[if k < i then k else k + 1];
    var prev, next := current.prev, current.next;
    assert prev == cells[i - 1] && next == At(cells, i + 1);
    prev.next := next;
    if next != null {
      next.prev := prev;
    }
    assert forall k {:trigger rest[k].next} :: 0 <= k < |rest| ==> rest[k].next == At(rest, k + 1);
    assert forall k {:trigger rest[k].prev} :: 0 <= k < |rest| ==> rest[k].prev == At(rest, k - 1);
  }

  // Takes the i-th cell out of the chain.
  method Unlink(ghost h: nat, ghost head: Cell, ghost cells: seq<Cell>, ghost s: Slot, ghost i: nat, current: Cell)
    requires BucketOk(h, head, cells, s) && 0 < i < |cells| && current == cells[i]
    modifies cells
    ensures BucketOk(h, head, cells[..i] + cells[i + 1..], s.(chain := s.chain[..i - 1] + s.chain[i..]))
  {
    ghost var rest, chain := cells[..i] + cells[i + 1..], s.chain[..i - 1] + s.chain[i..];
    Relink(h, cells, i, current);
    forall k | 1 <= k < |rest|
      ensures chain[k - 1] == Entry(Ident(rest[k].key, rest[k].userId), rest[k].value)
    {
      assert rest[k] == cells[if k < i then k else k + 1];
    }
  }

  // The walk of an insertion: to the cell that holds the key, or else to the last cell.
  method Seek(ghost h: nat, head: Cell, ghost cells: seq<Cell>, ghost s: Slot, key: string, user: UserId)
    returns (current: Cell, ghost i: nat)
    requires BucketOk(h, head, cells, s) && s.live
    ensures i < |cells| && current == cells[i]
    ensures var id := Ident(key, user);
            i == if HeadIs(s, id) then 0 else if InChain(s, id) then Find(s.chain, id) + 1 else |s.chain|
  {
    current, i := head, 0;
    ghost var id := Ident(key, user);
    while current.next != null
      invariant 0 <= i < |cells| && current == cells[i]
      invariant forall j :: 0 <= j < i ==> cells[j].Id() != id
      decreases |cells| - i
    {
      if key == current.key && current.userId == user {
        break;
      }
      current := current.next;
      i := i + 1;
    }
    assert forall j :: 0 <= j < |s.chain| ==> s.chain[j].id == cells[j + 1].Id();
    if i > 0 && current.Id() == id {
      FindFirst(s.chain, id, i - 1);
    }
  }

  // The bucket part of insert_item; reports whether a cell came alive.
  method InsertIn(ghost h: nat, head: Cell, ghost cells: seq<Cell>, ghost s: Slot,
                  key: string, value: string, user: UserId)
    returns (grew: bool, ghost cells': seq<Cell>)
    requires BucketOk(h, head, cells, s)
    modifies cells
    ensures forall c :: c in cells' ==> c in cells || fresh(c)
    ensures var s' := SlotInsert(s, Ident(key, user), value);
            && BucketOk(h, head, cells', s')
            && LiveCells(s') == LiveCells(s) + if grew then 1 else 0
  {
    ghost var s', i := s, 0;
    cells', grew := cells, false;
    var current := head;
    if !current.initCell {
      grew := true;
    } else {
      current, i := Seek(h, head, cells, s, key, user);
      if current.next == null && (current.userId != user || key != current.key) {
        current := Link(h, head, cells, s, current);
        cells', s', i := cells + [current], s.(chain := s.chain + [BLANK]), i + 1;
        grew := true;
      }
    }
    FilledIsInsert(s, s', i, Entry(Ident(key, user), value), grew);
    Fill(h, head, cells', s', i, current, key, value, user);
  }

  // Filling a vacant head, the cell of the key, or a new last cell is the insertion.
  lemma FilledIsInsert(s: Slot, s': Slot, i: nat, e: Entry, grew: bool)
    requires if !s.live then s' == s && i == 0 && grew
             else if HeadIs(s, e.id) then s' == s && i == 0 && !grew
             else if InChain(s, e.id) then s' == s && i == Find(s.chain, e.id) + 1 && !grew
             else s' == s.(chain := s.chain + [BLANK]) && i == |s.chain| + 1 && grew
    ensures Filled(s', i, e) == SlotInsert(s, e.id, e.value)
    ensures LiveCells(SlotInsert(s, e.id, e.value)) == LiveCells(s) + if grew then 1 else 0
  {
  }

  // The bucket part of delete_item; reports whether a cell was found.
  method DeleteIn(ghost h: nat, head: Cell, ghost cells: seq<Cell>, ghost s: Slot, key: string, user: UserId)
    returns (found: bool, ghost cells': seq<Cell>)
    requires BucketOk(h, head, cells, s)
    modifies cells
    ensures forall c :: c in cells' ==> c in cells
    ensures found == SlotLookup(s, Ident(key, user)).Some?
    ensures var s' := SlotDelete(s, Ident(key, user));
            && BucketOk(h, head, cells', s')
            && LiveCells(s') == LiveCells(s) - if found then 1 else 0
  {
    ghost var id := Ident(key, user);
    cells' := cells;
    if head.initCell && head.userId == user && key == head.key {
      Vacate(h, head, cells, s);
      return true, cells;
    }
    assert cells[0].next == head.next;
    var current := head.next;
    ghost var i := 0;
    while current != null
      invariant 0 <= i <= |s.chain|
      invariant current == At(cells, i + 1)
      invariant forall j :: 0 <= j < i ==> s.chain[j].id != id
      decreases |s.chain| - i
    {
      if current.userId == user && key == current.key {
        FindFirst(s.chain, id, i);
        Unlink(h, head, cells, s, i + 1, current);
        return true, cells[..i + 1] + cells[i + 2..];
      }
      assert current == cells[i + 1];
      current := current.next;
      i := i + 1;
    }
    return false, cells;
  }

  // The walk of a read behind a head that does not hold the key.
  method GetBehind(ghost h: nat, head: Cell, ghost cells: seq<Cell>, ghost s: Slot,
                   key: string, user: UserId, room: nat)
    returns (got: Got)
    requires BucketOk(h, head, cells, s)
    ensures got == match ChainLookup(s, Ident(key, user))
                   case None => Got(-1, None, None)
                   case Some(v) =>
                     if room > |v| then Got(0, Some(v), Some(|s.head.value| + 1)) else Got(-1, None, None)
  {
    ghost var id, i := Ident(key, user), 0;
    var current := head.next;
    assert cells[0].next == head.next;
    while current != null
      invariant 0 <= i <= |s.chain|
      invariant current == At(cells, i + 1)
      invariant forall j :: 0 <= j < i ==> s.chain[j].id != id
      decreases |s.chain| - i
    {
      if current.userId == user && key == current.key {
        FindFirst(s.chain, id, i);
        if room > |current.value| {
          return Got(0, Some(current.value), Some(|head.value| + 1));
        }
        return Got(-1, None, None);
      }
      assert current == cells[i + 1];
      current := current.next;
      i := i + 1;
    }
    return Got(-1, None, None);
  }

  class HashTable {
    const hash: Hash
    const heads: seq<Cell>
    var tableSize: int
    ghost var chains: seq<seq<Cell>>
    ghost var repr: set<Cell>
    ghost var ops: seq<Op>  // the operations performed so far
    ghost var model: Table

    ghost predicate Valid()
      reads this, repr
    {
      && |heads| == TABLE_SIZE
      && |chains| == TABLE_SIZE
      && model == Run(hash, ops)
      && tableSize == model.size
      && (forall h :: 0 <= h < TABLE_SIZE ==> forall c :: c in chains[h] ==> c in repr)
      && (forall h :: 0 <= h < TABLE_SIZE ==> BucketOk(h, heads[h], chains[h], model.slots[h]))
    }

    // No cell is in two places, in one chain or in two, and the links mirror each other.
    lemma CellsInOnePlace(g: nat, i: nat, h: nat, j: nat)
      requires Valid() && g < TABLE_SIZE && i < |chains[g]| && h < TABLE_SIZE && j < |chains[h]|
      ensures chains[g][i] == chains[h][j] <==> g == h && i == j
      ensures var c := chains[g][i];
              && (c.next != null ==> c.next.prev == c)
              && (c.prev != null ==> c.prev.next == c)
              && (c.prev == null <==> i == 0) && (c.next == null <==> i == |chains[g]| - 1)
    {
      assert BucketOk(g, heads[g], chains[g], model.slots[g]) && BucketOk(h, heads[h], chains[h], model.slots[h]);
      var cells, c := chains[g], chains[g][i];
      assert c.next == At(cells, i + 1) && c.prev == At(cells, i - 1);
      if i > 0 {
        assert cells[i - 1].next == At(cells, i);
      }
      if i + 1 < |cells| {
        assert cells[i + 1].prev == At(cells, i);
      }
    }

    constructor (hash: Hash)
      ensures Valid() && fresh(repr)
      ensures ops == [] && this.hash == hash
    {
      var hs: seq<Cell> := [];
      ghost var cs: seq<seq<Cell>> := [];
      ghost var all: set<Cell> := {};
      while |hs| < TABLE_SIZE
        invariant |cs| == |hs| <= TABLE_SIZE
        invariant fresh(all)
        invariant forall h :: 0 <= h < |hs| ==> cs[h] == [hs[h]] && hs[h] in all
        invariant forall h :: 0 <= h < |hs| ==> BucketOk(h, hs[h], cs[h], Slot(false, Entry(Ident("", 0), ""), []))
      {
        var c := new Cell();
        c.bucket := |hs|;
        hs, cs, all := hs + [c], cs + [[c]], all + {c};
      }
      this.hash := hash;
      heads := hs;
      tableSize := 0;
      chains := cs;
      repr := all;
      ops := [];
      model := Empty();
    }

    method Get(key: string, user: UserId, room: nat, sha: int) returns (got: Got)
      requires Valid()
      ensures got == if sha != 0 then Got(sha, None, None) else GetItem(hash, model, Ident(key, user), room)
    {
      if sha != 0 {
        return Got(sha, None, None);
      }
      var h := hash(key);
      ghost var id := Ident(key, user);
      ghost var cells, s := chains[h], model.slots[h];
      assert BucketOk(h, heads[h], cells, s);
      if heads[h].initCell && heads[h].userId == user && key == heads[h].key {
        if room > |heads[h].value| {
          return Got(0, Some(heads[h].value), Some(|heads[h].value| + 1));
        }
        return Got(-1, None, Some(|heads[h].value| + 1));
      }
      got := GetBehind(h, heads[h], cells, s, key, user, room);
    }

    method Insert(key: string, value: string, user: UserId, sha: int) returns (err: int)
      requires Valid()
      modifies this, repr
      ensures Valid() && fresh(repr - old(repr))
      ensures err == sha
      ensures ops == if sha != 0 then old(ops) else old(ops) + [StorageSpec.Insert(Ident(key, user), value)]
    {
      if sha != 0 {
        return sha;
      }
      var h := hash(key);
      ghost var op := StorageSpec.Insert(Ident(key, user), value);
      ghost var cells;
      var grew;
      grew, cells := InsertAt(h, key, value, user);
      if grew {
        tableSize := tableSize + 1;
      }
      Record(h, cells, op);
      return 0;
    }

    method Delete(key: string, user: UserId, sha: int) returns (err: int)
      requires Valid()
      modifies this, repr
      ensures Valid() && fresh(repr - old(repr))
      ensures err == if sha != 0 then sha else if Lookup(hash, old(model), Ident(key, user)).Some? then 0 else -1
      ensures ops == if sha != 0 then old(ops) else old(ops) + [StorageSpec.Delete(Ident(key, user))]
    {
      if sha != 0 {
        return sha;
      }
      var h := hash(key);
      ghost var op := StorageSpec.Delete(Ident(key, user));
      ghost var cells;
      var found;
      found, cells := DeleteAt(h, key, user);
      if found {
        tableSize := tableSize - 1;
      }
      Record(h, cells, op);
      return if found then 0 else -1;
    }

    // A change to the cells of one bucket leaves the others as they are.
    method InsertAt(h: Bucket, key: string, value: string, user: UserId) returns (grew: bool, ghost cells: seq<Cell>)
      requires Valid()
      modifies repr
      ensures forall k :: 0 <= k < TABLE_SIZE && k != h ==> BucketOk(k, heads[k], chains[k], model.slots[k])
      ensures forall c :: c in cells ==> c in repr || fresh(c)
      ensures var s, s' := model.slots[h], SlotInsert(model.slots[h], Ident(key, user), value);
              BucketOk(h, heads[h], cells, s') && LiveCells(s') == LiveCells(s) + if grew then 1 else 0
    {
      assert BucketOk(h, heads[h], chains[h], model.slots[h]);
      grew, cells := InsertIn(h, heads[h], chains[h], model.slots[h], key, value, user);
    }

    method DeleteAt(h: Bucket, key: string, user: UserId) returns (found: bool, ghost cells: seq<Cell>)
      requires Valid()
      modifies repr
      ensures forall k :: 0 <= k < TABLE_SIZE && k != h ==> BucketOk(k, heads[k], chains[k], model.slots[k])
      ensures forall c :: c in cells ==> c in repr
      ensures found == SlotLookup(model.slots[h], Ident(key, user)).Some?
      ensures var s, s' := model.slots[h], SlotDelete(model.slots[h], Ident(key, user));
              BucketOk(h, heads[h], cells, s') && LiveCells(s') == LiveCells(s) - if found then 1 else 0
    {
      assert BucketOk(h, heads[h], chains[h], model.slots[h]);
      found, cells := DeleteIn(h, heads[h], chains[h], model.slots[h], key, user);
    }

    // Ghost bookkeeping after the cells of one bucket have been changed for an operation.
    ghost method Record(h: Bucket, cells: seq<Cell>, op: Op)
      requires |heads| == |chains| == TABLE_SIZE && model == Run(hash, ops)
      requires forall k :: 0 <= k < TABLE_SIZE && k != h ==> BucketOk(k, heads[k], chains[k], model.slots[k])
      requires forall k :: 0 <= k < TABLE_SIZE && k != h ==> forall c :: c in chains[k] ==> c in repr
      requires h == hash(op.id.key)
      requires BucketOk(h, heads[h], cells, Apply(hash, model, op).slots[h])
      requires tableSize == Apply(hash, model, op).size
      modifies this`chains, this`repr, this`model, this`ops
      ensures Valid() && ops == old(ops) + [op]
      ensures repr == old(repr) + set c | c in cells
    {
      RunStep(hash, ops, op);
      ApplyElsewhere(hash, model, op);
      chains := chains[h := cells];
      repr := repr + set c | c in cells;
      model := Apply(hash, model, op);
      ops := ops + [op];
    }

    method Pop(key: string, user: UserId, room: nat, shaGet: int, shaDelete: int) returns (err: int, got: Got)
      requires Valid()
      modifies this, repr
      ensures Valid() && fresh(repr - old(repr))
      ensures got == if shaGet != 0 then Got(shaGet, None, None)
                     else GetItem(hash, old(model), Ident(key, user), room)
      ensures err == if got.err != 0 then -1 else shaDelete
      ensures ops == if err != 0 then old(ops) else old(ops) + [StorageSpec.Delete(Ident(key, user))]
    {
      got := Get(key, user, room, shaGet);
      if got.err != 0 {
        return -1, got;
      }
      err := Delete(key, user, shaDelete);
    }

    method GetSize() returns (n: int)
      requires Valid()
      ensures n == |View(hash, model).Keys| + |Shadows(model.slots)|
    {
      SizeCountsKeysAndShadows(hash, ops);
      n := tableSize;
    }
  }
}
