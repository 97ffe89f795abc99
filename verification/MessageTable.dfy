/** The typed item table of `AMessage` (src/aloop.cpp): 64 slots, names and heap
    payloads owned by raw pointer. */
module MessageTable {
  import opened Prelude

  datatype Kind = KInt32 | KInt64 | KSize | KFloat | KDouble | KPointer | KString | KObject

  const MAX_ITEMS: nat := 64

  /** Strings and object holders live on the heap, the other kinds in the union itself. */
  predicate OnHeap(k: Kind) {
    k.KString? || k.KObject?
  }

  // ---------- the specification: an insertion-ordered map ----------

  datatype Entry = Entry(name: string, kind: Kind, payload: int)

  predicate HasName(es: seq<Entry>, name: string) {
    exists i | 0 <= i < |es| :: es[i].name == name
  }

  ghost predicate DistinctNames(es: seq<Entry>) {
    forall i, j | 0 <= i < j < |es| :: es[i].name != es[j].name
  }

  /** Replace in place, or append. */
  function Put(es: seq<Entry>, e: Entry): seq<Entry> {
    if es == [] then [e]
    else if es[0].name == e.name then [e] + es[1..]
    else [es[0]] + Put(es[1..], e)
  }

  /** The payload stored under name, provided it was stored with that kind. */
  function Find(es: seq<Entry>, name: string, kind: Kind): Option<int> {
    if es == [] then None
    else if es[0].name == name then (if es[0].kind == kind then Some(es[0].payload) else None)
    else Find(es[1..], name, kind)
  }

  lemma {:induction false} PutAt(es: seq<Entry>, e: Entry, i: nat)
    requires DistinctNames(es)
    requires i <= |es|
    requires i < |es| ==> es[i].name == e.name
    requires i == |es| ==> !HasName(es, e.name)
    ensures Put(es, e) == if i < |es| then es[i := e] else es + [e]
  {
    if es == [] || i == 0 {
    } else {
      PutAt(es[1..], e, i - 1);
    }
  }

  lemma {:induction false} PutDistinct(es: seq<Entry>, e: Entry)
    requires DistinctNames(es)
    ensures DistinctNames(Put(es, e))
    ensures |Put(es, e)| == if HasName(es, e.name) then |es| else |es| + 1
    ensures forall n :: HasName(Put(es, e), n) <==> n == e.name || HasName(es, n)
  {
    if HasName(es, e.name) {
      var i :| 0 <= i < |es| && es[i].name == e.name;
      PutAt(es, e, i);
      var r := es[i := e];
      forall n ensures HasName(r, n) <==> n == e.name || HasName(es, n) {
        assert forall k | 0 <= k < |es| :: r[k].name == es[k].name;
      }
    } else {
      PutAt(es, e, |es|);
      var r := es + [e];
      forall n ensures HasName(r, n) <==> n == e.name || HasName(es, n) {
        assert r[|es|] == e;
        assert forall k | 0 <= k < |es| :: r[k] == es[k];
      }
    }
  }

  lemma {:induction false} FindAfterPut(es: seq<Entry>, e: Entry, name: string, kind: Kind)
    ensures Find(Put(es, e), name, kind)
         == if name == e.name then (if kind == e.kind then Some(e.payload) else None) else Find(es, name, kind)
  {
    if es == [] || es[0].name == e.name {
    } else {
      FindAfterPut(es[1..], e, name, kind);
    }
  }

  lemma {:induction false} FindAt(es: seq<Entry>, i: nat, name: string, kind: Kind)
    requires DistinctNames(es) && i <= |es|
    requires i < |es| ==> es[i].name == name
    requires i == |es| ==> !HasName(es, name)
    ensures Find(es, name, kind) == if i < |es| && es[i].kind == kind then Some(es[i].payload) else None
  {
    if es == [] || i == 0 {
    } else {
      FindAt(es[1..], i - 1, name, kind);
    }
  }

  // ---------- whole runs of the specification ----------

  datatype Op = Set(entry: Entry) | Clear

  function Run(ops: seq<Op>): seq<Entry> {
    if ops == [] then []
    else
      var before := Run(ops[..|ops| - 1]);
      match ops[|ops| - 1]
      case Clear => []
      case Set(e) => Put(before, e)
  }

  /** The entry of the last set of name that no later clear wiped out. */
  function LastSet(ops: seq<Op>, name: string): Option<Entry> {
    if ops == [] then None
    else match ops[|ops| - 1]
      case Clear => None
      case Set(e) => if e.name == name then Some(e) else LastSet(ops[..|ops| - 1], name)
  }

  /** No set in the run hits the CHECK on the number of items. */
  ghost predicate Fits(ops: seq<Op>) {
    forall n | 0 <= n <= |ops| :: |Run(ops[..n])| <= MAX_ITEMS
  }

  /** find succeeds exactly when the last surviving set of that name had that type. */
  lemma {:induction false} FindIsLastSet(ops: seq<Op>, name: string, kind: Kind)
    ensures DistinctNames(Run(ops))
    ensures Find(Run(ops), name, kind)
         == match LastSet(ops, name)
            case Some(e) => (if e.kind == kind then Some(e.payload) else None)
            case None => None
  {
    if ops != [] {
      var before := ops[..|ops| - 1];
      FindIsLastSet(before, name, kind);
      if ops[|ops| - 1].Set? {
        FindAfterPut(Run(before), ops[|ops| - 1].entry, name, kind);
        PutDistinct(Run(before), ops[|ops| - 1].entry);
      }
    }
  }

  // ---------- the heap ----------

  /** Addresses are handed out once; `frees` counts the deletes of each address. */
  class Heap {
    var cells: seq<int>
    var frees: multiset<nat>

    constructor ()
      ensures cells == [] && frees == multiset{}
    {
      cells := [];
      frees := multiset{};
    }

    method New(payload: int) returns (addr: nat)
      modifies this
      ensures addr == old(|cells|) && cells == old(cells) + [payload] && frees == old(frees)
    {
      addr := |cells|;
      cells := cells + [payload];
    }

    method Delete(addr: nat)
      modifies this
      ensures frees == old(frees) + multiset{addr} && cells == old(cells)
    {
      frees := frees + multiset{addr};
    }
  }

  // ---------- the implementation ----------

  datatype Word = Bits(bits: int) | Ref(addr: nat)

  datatype Item = Item(name: string, nameAddr: nat, kind: Kind, word: Word)

  /** 1 for an address handed out while the counter went from lo to hi. */
  function New(a: nat, lo: nat, hi: nat): nat {
    if lo <= a < hi then 1 else 0
  }

  ghost predicate WellTyped(it: Item, cells: seq<int>) {
    if OnHeap(it.kind) then it.word.Ref? && it.word.addr < |cells| else it.word.Bits?
  }

  ghost function Payload(it: Item, cells: seq<int>): int
    requires WellTyped(it, cells)
  {
    match it.word
    case Bits(b) => b
    case Ref(a) => cells[a]
  }

  /** How often deleting the item's value deletes address a. */
  ghost function ValueAt(it: Item, a: nat): nat {
    if OnHeap(it.kind) && it.word == Ref(a) then 1 else 0
  }

  ghost function Owns(it: Item, a: nat): nat {
    (if it.nameAddr == a then 1 else 0) + ValueAt(it, a)
  }

  /** How often `clear` on these items deletes address a. */
  ghost function OwnedBy(items: seq<Item>, a: nat): nat {
    if items == [] then 0 else OwnedBy(items[..|items| - 1], a) + Owns(items[|items| - 1], a)
  }

  /** Both items are well typed and carry the same name, type and payload. */
  ghost predicate SameEntry(x: Item, cells: seq<int>, y: Item, cells': seq<int>) {
    && WellTyped(x, cells) && WellTyped(y, cells')
    && x.name == y.name && x.kind == y.kind && Payload(x, cells) == Payload(y, cells')
  }

  ghost function EntriesOf(items: seq<Item>, cells: seq<int>): (es: seq<Entry>)
    requires forall i | 0 <= i < |items| :: WellTyped(items[i], cells)
    ensures |es| == |items|
    ensures forall i | 0 <= i < |es| :: es[i] == Entry(items[i].name, items[i].kind, Payload(items[i], cells))
  {
    seq(|items|, i requires 0 <= i < |items| => Entry(items[i].name, items[i].kind, Payload(items[i], cells)))
  }

  lemma {:induction false} OwnedUpdate(items: seq<Item>, i: nat, it: Item, a: nat)
    requires i < |items|
    ensures OwnedBy(items[i := it], a) + Owns(items[i], a) == OwnedBy(items, a) + Owns(it, a)
  {
    var n := |items| - 1;
    if i == n {
      assert items[i := it][..n] == items[..n];
    } else {
      assert items[i := it][..n] == items[..n][i := it];
      OwnedUpdate(items[..n], i, it, a);
    }
  }

  lemma OwnedSnoc(items: seq<Item>, it: Item, a: nat)
    ensures OwnedBy(items + [it], a) == OwnedBy(items, a) + Owns(it, a)
  {
    assert (items + [it])[..|items|] == items;
  }

  /** The table after `it` went into slot i. */
  ghost function Filled(items: seq<Item>, i: nat, it: Item): seq<Item>
    requires i <= |items|
  {
    if i < |items| then items[i := it] else items + [it]
  }

  lemma SameEntries(xs: seq<Item>, cells: seq<int>, ys: seq<Item>, cells': seq<int>)
    requires |xs| == |ys| && forall k | 0 <= k < |xs| :: SameEntry(xs[k], cells, ys[k], cells')
    ensures forall k | 0 <= k < |xs| :: WellTyped(xs[k], cells) && WellTyped(ys[k], cells')
    ensures EntriesOf(xs, cells) == EntriesOf(ys, cells')
  {
  }

  lemma Refilled(items: seq<Item>, i: nat, before: Item, it: Item)
    requires i <= |items|
    ensures Filled(items, i, before)[i := it] == Filled(items, i, it)
  {
  }

  /** Filling the slot AllocateItem picked puts the entry into the map. */
  lemma FilledIsPut(items: seq<Item>, cells: seq<int>, cells': seq<int>, i: nat, it: Item)
    requires forall k | 0 <= k < |items| :: WellTyped(items[k], cells)
    requires DistinctNames(EntriesOf(items, cells))
    requires i <= |items| && cells <= cells' && WellTyped(it, cells')
    requires i < |items| ==> items[i].name == it.name
    requires i == |items| ==> !HasName(EntriesOf(items, cells), it.name)
    ensures var after := Filled(items, i, it);
            && (forall k | 0 <= k < |after| :: WellTyped(after[k], cells'))
            && EntriesOf(after, cells') == Put(EntriesOf(items, cells), Entry(it.name, it.kind, Payload(it, cells')))
            && DistinctNames(EntriesOf(after, cells'))
  {
    var e := Entry(it.name, it.kind, Payload(it, cells'));
    var es := EntriesOf(items, cells);
    PutAt(es, e, i);
    PutDistinct(es, e);
    var after := Filled(items, i, it);
    forall k | 0 <= k < |after|
      ensures WellTyped(after[k], cells')
      ensures Entry(after[k].name, after[k].kind, Payload(after[k], cells'))
           == (if i < |es| then es[i := e] else es + [e])[k]
    {
      if k < |items| && k != i {
        assert WellTyped(items[k], cells);
      }
    }
    assert EntriesOf(after, cells') == Put(es, e);
  }

  lemma FilledOwns(items: seq<Item>, i: nat, it: Item, a: nat)
    requires i <= |items|
    requires i < |items| ==> items[i].nameAddr == it.nameAddr
    ensures OwnedBy(Filled(items, i, it), a) + (if i < |items| then ValueAt(items[i], a) else 0)
         == OwnedBy(items, a) + (if i < |items| then ValueAt(it, a) else Owns(it, a))
  {
    if i < |items| {
      OwnedUpdate(items, i, it, a);
    } else {
      OwnedSnoc(items, it, a);
    }
  }

  /** Freed and owned, before and after `it` went into the slot AllocateItem picked. */
  lemma StoredBalance(items: seq<Item>, i: nat, it: Item, lo: nat, hi: nat, freed: multiset<nat>, freed': multiset<nat>)
    requires i <= |items|
    requires i < |items| ==>
               && items[i].nameAddr == it.nameAddr && hi == lo
               && forall a: nat :: freed'[a] == freed[a] + ValueAt(items[i], a)
    requires i == |items| ==> it.nameAddr == lo && hi == lo + 1 && freed' == freed
    ensures forall a: nat ::
              freed'[a] + OwnedBy(Filled(items, i, it), a)
              == freed[a] + OwnedBy(items, a) + New(a, lo, hi) + ValueAt(it, a)
  {
    forall a: nat
      ensures freed'[a] + OwnedBy(Filled(items, i, it), a)
              == freed[a] + OwnedBy(items, a) + New(a, lo, hi) + ValueAt(it, a)
    {
      FilledOwns(items, i, it, a);
    }
  }

  /** How many object holders at address a `dup` copies by pointer. */
  ghost function Holders(items: seq<Item>, a: nat): nat {
    if items == [] then 0
    else Holders(items[..|items| - 1], a)
         + (if items[|items| - 1].kind.KObject? then ValueAt(items[|items| - 1], a) else 0)
  }

  /** What one round of `dup` adds to the copy's owned addresses. */
  lemma CopyOwned(copy: seq<Item>, it: Item, from: seq<Item>, i: nat, lo: nat, mid: nat, hi: nat, a: nat)
    requires i < |from| && lo <= mid <= hi
    requires OwnedBy(copy, a) == New(a, lo, mid) + Holders(from[..i], a)
    requires Owns(it, a) == New(a, mid, hi) + (if from[i].kind.KObject? then ValueAt(from[i], a) else 0)
    ensures OwnedBy(copy + [it], a) == New(a, lo, hi) + Holders(from[..i + 1], a)
  {
    OwnedSnoc(copy, it, a);
    assert from[..i + 1][..i] == from[..i];
  }

  class AMessage {
    const heap: Heap
    const mItems: array<Item>
    var mNumItems: nat

    ghost predicate Valid()
      reads this, heap, mItems
    {
      && mItems.Length == MAX_ITEMS && mNumItems <= MAX_ITEMS
      && (forall i | 0 <= i < mNumItems :: WellTyped(mItems[i], heap.cells))
      && DistinctNames(EntriesOf(mItems[..mNumItems], heap.cells))
    }

    ghost function Contents(): seq<Entry>
      reads this, heap, mItems
      requires Valid()
    {
      EntriesOf(mItems[..mNumItems], heap.cells)
    }

    ghost function Owned(a: nat): nat
      reads this, mItems
      requires mNumItems <= mItems.Length
    {
      OwnedBy(mItems[..mNumItems], a)
    }

    constructor (heap: Heap)
      ensures Valid() && this.heap == heap && fresh(mItems)
      ensures Contents() == [] && mNumItems == 0 && mItems.Length == 64
    {
      this.heap := heap;
      mItems := new Item[MAX_ITEMS](_ => Item("", 0, KInt32, Bits(0)));
      mNumItems := 0;
    }

    method FindItemIndex(name: string) returns (i: nat)
      requires Valid()
      ensures i <= mNumItems
      ensures i < mNumItems ==> Contents()[i].name == name
      ensures i == mNumItems <==> !HasName(Contents(), name)
    {
      i := 0;
      while i < mNumItems
        invariant i <= mNumItems
        invariant forall k | 0 <= k < i :: mItems[k].name != name
      {
        if |name| == |mItems[i].name| && mItems[i].name == name {
          assert Contents()[i].name == name;
          break;
        }
        i := i + 1;
      }
      assert forall k | 0 <= k < i :: Contents()[k].name != name;
    }

    method FreeItemValue(it: Item)
      modifies heap
      ensures heap.cells == old(heap.cells)
      ensures forall a: nat :: heap.frees[a] == old(heap.frees)[a] + ValueAt(it, a)
    {
      match it.kind
      case KString =>
        if it.word.Ref? {
          heap.Delete(it.word.addr);
        }
      case KObject =>
        if it.word.Ref? {
          heap.Delete(it.word.addr);
        }
      case _ =>
    }

    /** The slot for name: its old value is freed but still sits in the slot, or the
        slot is new and holds whatever was there. */
    method AllocateItem(name: string) returns (i: nat)
      requires Valid()
      requires HasName(Contents(), name) || mNumItems < MAX_ITEMS
      modifies this, heap, mItems
      ensures i < mNumItems <= MAX_ITEMS && i <= old(mNumItems) <= mNumItems
      ensures i < old(mNumItems) <==> HasName(old(Contents()), name)
      ensures old(heap.cells) <= heap.cells
      ensures mItems[..mNumItems] == Filled(old(mItems[..mNumItems]), i, mItems[i])
      ensures mItems[i].name == name
      ensures i < old(mNumItems) ==>
                && mNumItems == old(mNumItems) && mItems[i] == old(mItems[i]) && heap.cells == old(heap.cells)
                && forall a: nat :: heap.frees[a] == old(heap.frees)[a] + ValueAt(mItems[i], a)
      ensures i >= old(mNumItems) ==>
                && i == old(mNumItems) && mNumItems == i + 1 && heap.frees == old(heap.frees)
                && heap.cells == old(heap.cells) + [0] && mItems[i].nameAddr == old(|heap.cells|)
    {
      i := FindItemIndex(name);
      if i < mNumItems {
        assert Contents()[i].name == name;
        FreeItemValue(mItems[i]);
      } else {
        mNumItems := mNumItems + 1;
        var addr := heap.New(0);
        mItems[i] := mItems[i].(name := name, nameAddr := addr);
      }
    }

    /** Writes type tag and union into the slot that was picked for a table of these items. */
    method FillSlot(i: nat, kind: Kind, word: Word, ghost items: seq<Item>, ghost cells: seq<int>)
      requires i <= |items| && i < mNumItems <= MAX_ITEMS == mItems.Length && cells <= heap.cells
      requires mItems[..mNumItems] == Filled(items, i, mItems[i])
      requires (forall k | 0 <= k < |items| :: WellTyped(items[k], cells)) && DistinctNames(EntriesOf(items, cells))
      requires i < |items| ==> items[i].name == mItems[i].name
      requires i == |items| ==> !HasName(EntriesOf(items, cells), mItems[i].name)
      requires WellTyped(mItems[i].(kind := kind, word := word), heap.cells)
      modifies mItems
      ensures var it := old(mItems[i]).(kind := kind, word := word);
              && mItems[..mNumItems] == Filled(items, i, it) && Valid()
              && Contents() == Put(EntriesOf(items, cells), Entry(it.name, kind, Payload(it, heap.cells)))
    {
      ghost var it := mItems[i].(kind := kind, word := word);
      FilledIsPut(items, cells, heap.cells, i, it);
      Refilled(items, i, mItems[i], it);
      mItems[i] := mItems[i].(kind := kind, word := word);
      assert mItems[..mNumItems] == Filled(items, i, it);
      assert forall k | 0 <= k < mNumItems :: mItems[k] == mItems[..mNumItems][k];
    }

    /** What every setter does: pick the slot, then write type tag and union. */
    method Store(name: string, kind: Kind, word: Word)
      requires Valid() && WellTyped(Item(name, 0, kind, word), heap.cells)
      requires HasName(Contents(), name) || mNumItems < MAX_ITEMS
      modifies this, heap, mItems
      ensures Valid() && old(heap.cells) <= heap.cells
      ensures Contents() == Put(old(Contents()), Entry(name, kind, Payload(Item(name, 0, kind, word), old(heap.cells))))
      ensures forall a: nat :: heap.frees[a] + Owned(a)
                == old(heap.frees)[a] + old(Owned(a)) + New(a, old(|heap.cells|), |heap.cells|)
                   + (if word == Ref(a) then 1 else 0)
    {
      ghost var items, cells := mItems[..mNumItems], heap.cells;
      var i := AllocateItem(name);
      ghost var it := mItems[i].(kind := kind, word := word);
      StoredBalance(items, i, it, |cells|, |heap.cells|, old(heap.frees), heap.frees);
      FillSlot(i, kind, word, items, cells);
    }

    method SetScalar(name: string, kind: Kind, bits: int)
      requires Valid() && !OnHeap(kind)
      requires HasName(Contents(), name) || mNumItems < MAX_ITEMS
      modifies this, heap, mItems
      ensures Valid() && Contents() == Put(old(Contents()), Entry(name, kind, bits))
      ensures old(heap.cells) <= heap.cells
      ensures forall a: nat :: heap.frees[a] + Owned(a)
                == old(heap.frees)[a] + old(Owned(a)) + New(a, old(|heap.cells|), |heap.cells|)
    {
      Store(name, kind, Bits(bits));
    }

    /** setString and setObject: the new value is on the heap before the old one is freed. */
    method SetOnHeap(name: string, kind: Kind, payload: int)
      requires Valid() && OnHeap(kind)
      requires HasName(Contents(), name) || mNumItems < MAX_ITEMS
      modifies this, heap, mItems
      ensures Valid() && Contents() == Put(old(Contents()), Entry(name, kind, payload))
      ensures old(heap.cells) <= heap.cells
      ensures forall a: nat :: heap.frees[a] + Owned(a)
                == old(heap.frees)[a] + old(Owned(a)) + New(a, old(|heap.cells|), |heap.cells|)
    {
      var addr := heap.New(payload);
      assert EntriesOf(mItems[..mNumItems], heap.cells) == EntriesOf(mItems[..mNumItems], old(heap.cells));
      Store(name, kind, Ref(addr));
    }

    method FindItem(name: string, kind: Kind) returns (r: Option<int>)
      requires Valid()
      ensures r == Find(Contents(), name, kind)
    {
      var i := FindItemIndex(name);
      FindAt(Contents(), i, name, kind);
      if i < mNumItems && mItems[i].kind == kind {
        match mItems[i].word
        case Bits(bits) => return Some(bits);
        case Ref(addr) => return Some(heap.cells[addr]);
      }
      return None;
    }

    method Clear()
      requires Valid()
      modifies this, heap
      ensures Valid() && Contents() == [] && mNumItems == 0
      ensures heap.cells == old(heap.cells)
      ensures forall a: nat :: heap.frees[a] == old(heap.frees)[a] + old(Owned(a))
    {
      var i := 0;
      while i < mNumItems
        invariant i <= mNumItems == old(mNumItems)
        invariant heap.cells == old(heap.cells)
        invariant forall a: nat :: heap.frees[a] == old(heap.frees)[a] + OwnedBy(mItems[..i], a)
      {
        ghost var item := mItems[i];
        heap.Delete(mItems[i].nameAddr);
        FreeItemValue(mItems[i]);
        assert mItems[..i + 1] == mItems[..i] + [item];
        forall a: nat
          ensures OwnedBy(mItems[..i + 1], a) == OwnedBy(mItems[..i], a) + Owns(item, a)
        {
          OwnedSnoc(mItems[..i], item, a);
        }
        i := i + 1;
      }
      mNumItems := 0;
    }

    /** Copies every item; a string is copied, an object holder is shared by pointer. */
    method Dup() returns (msg: AMessage)
      requires Valid()
      modifies heap
      ensures fresh(msg) && fresh(msg.mItems) && msg.heap == heap && msg.Valid() && Valid()
      ensures msg.Contents() == old(Contents()) == Contents()
      ensures old(heap.cells) <= heap.cells && heap.frees == old(heap.frees)
      ensures forall a: nat :: msg.Owned(a) == New(a, old(|heap.cells|), |heap.cells|) + Holders(mItems[..mNumItems], a)
    {
      msg := new AMessage(heap);
      ghost var cells := heap.cells;
      var i := 0;
      while i < mNumItems
        modifies heap, msg, msg.mItems
        invariant i <= mNumItems && Valid() && Copied(msg, i, cells)
        invariant heap.frees == old(heap.frees)
      {
        CopyNext(msg, i, cells);
        i := i + 1;
      }
      SameEntries(mItems[..mNumItems], heap.cells, mItems[..mNumItems], cells);
      SameEntries(msg.mItems[..i], heap.cells, mItems[..i], cells);
    }

    /** msg is a copy of the first i items, made on a heap that held these cells. */
    ghost predicate Copied(msg: AMessage, i: nat, cells: seq<int>)
      reads this, heap, mItems, msg, msg.mItems
    {
      && i <= mNumItems <= mItems.Length && i == msg.mNumItems <= msg.mItems.Length && cells <= heap.cells
      && (forall k | 0 <= k < i :: SameEntry(msg.mItems[k], heap.cells, mItems[k], cells))
      && forall a: nat :: msg.Owned(a) == New(a, |cells|, |heap.cells|) + Holders(mItems[..i], a)
    }

    method CopyNext(msg: AMessage, i: nat, ghost cells: seq<int>)
      requires Valid() && i < mNumItems && Copied(msg, i, cells) && msg.heap == heap
      requires forall k | 0 <= k < mNumItems :: WellTyped(mItems[k], cells)
      requires msg != this && msg.mItems != mItems && msg.mItems.Length == MAX_ITEMS
      modifies heap, msg, msg.mItems
      ensures Valid() && Copied(msg, i + 1, cells) && heap.frees == old(heap.frees)
    {
      ghost var items, before := msg.mItems[..i], heap.cells;
      CopyItem(msg, i);
      SameEntries(mItems[..mNumItems], heap.cells, mItems[..mNumItems], before);
      forall k | 0 <= k < i
        ensures SameEntry(msg.mItems[k], heap.cells, mItems[k], cells)
      {
        assert SameEntry(items[k], before, mItems[k], cells);
      }
      assert msg.mItems[..i + 1] == items + [msg.mItems[i]];
      assert mItems[..][..i] == mItems[..i] && mItems[..][..i + 1] == mItems[..i + 1];
      forall a: nat
        ensures msg.Owned(a) == New(a, |cells|, |heap.cells|) + Holders(mItems[..i + 1], a)
      {
        assert OwnedBy(items, a) == New(a, |cells|, |before|) + Holders(mItems[..i], a);
        CopyOwned(items, msg.mItems[i], mItems[..], i, |cells|, |before|, |heap.cells|, a);
      }
    }

    /** One round of the loop in `dup`. */
    method CopyItem(msg: AMessage, i: nat)
      requires Valid() && i < mNumItems && msg != this && msg.heap == heap
      requires msg.mItems != mItems && msg.mItems.Length == MAX_ITEMS && msg.mNumItems == i
      modifies heap, msg, msg.mItems
      ensures msg.mNumItems == i + 1
      ensures old(heap.cells) <= heap.cells && heap.frees == old(heap.frees)
      ensures forall k | 0 <= k < MAX_ITEMS && k != i :: msg.mItems[k] == old(msg.mItems[k])
      ensures SameEntry(msg.mItems[i], heap.cells, mItems[i], old(heap.cells))
      ensures forall a: nat :: Owns(msg.mItems[i], a)
                == New(a, old(|heap.cells|), |heap.cells|)
                   + (if mItems[i].kind.KObject? then ValueAt(mItems[i], a) else 0)
    {
      var from := mItems[i];
      var nameAddr := heap.New(0);
      var word := from.word;
      if from.kind.KString? {
        match from.word
        case Ref(addr) =>
          var copy := heap.New(heap.cells[addr]);
          word := Ref(copy);
        case Bits(_) =>
      }
      msg.mItems[i] := Item(from.name, nameAddr, from.kind, word);
      msg.mNumItems := i + 1;
    }
  }

  // ---------- whole lifetimes ----------

  /** Every address handed out so far is either owned by msg or was freed, once. */
  ghost predicate Balanced(msg: AMessage)
    reads msg, msg.heap, msg.mItems
    requires msg.mNumItems <= msg.mItems.Length
  {
    forall a: nat :: msg.heap.frees[a] + msg.Owned(a) == New(a, 0, |msg.heap.cells|)
  }

  /** One set or clear. */
  method Perform(msg: AMessage, op: Op)
    requires msg.Valid() && Balanced(msg)
    requires op.Set? ==> |Put(msg.Contents(), op.entry)| <= MAX_ITEMS
    modifies msg, msg.heap, msg.mItems
    ensures msg.Valid() && Balanced(msg)
    ensures msg.Contents() == if op.Set? then Put(old(msg.Contents()), op.entry) else []
  {
    match op
    case Clear => msg.Clear();
    case Set(e) =>
      PutDistinct(msg.Contents(), e);
      if OnHeap(e.kind) {
        msg.SetOnHeap(e.name, e.kind, e.payload);
      } else {
        msg.SetScalar(e.name, e.kind, e.payload);
      }
  }

  /** Any run of sets and clears, one find, then the destructor: find answers for the
      last surviving set, and every allocation is freed exactly once. */
  method Lifetime(ops: seq<Op>, name: string, kind: Kind) returns (heap: Heap, found: Option<int>)
    requires Fits(ops)
    ensures fresh(heap)
    ensures found == match LastSet(ops, name)
                     case Some(e) => (if e.kind == kind then Some(e.payload) else None)
                     case None => None
    ensures forall a: nat :: heap.frees[a] == if a < |heap.cells| then 1 else 0
  {
    heap := new Heap();
    var msg := new AMessage(heap);
    for i := 0 to |ops|
      invariant msg.heap == heap && fresh(heap) && fresh(msg) && fresh(msg.mItems)
      invariant msg.Valid() && msg.Contents() == Run(ops[..i])
      invariant Balanced(msg)
    {
      assert ops[..i + 1][..i] == ops[..i];
      assert |Run(ops[..i + 1])| <= MAX_ITEMS;
      Perform(msg, ops[i]);
    }
    assert ops[..|ops|] == ops;
    FindIsLastSet(ops, name, kind);
    found := msg.FindItem(name, kind);
    msg.Clear();
  }

  ghost predicate HasObject(es: seq<Entry>) {
    exists i | 0 <= i < |es| :: es[i].kind.KObject?
  }

  lemma {:induction false} HoldersOfPlain(items: seq<Item>, a: nat)
    requires forall i | 0 <= i < |items| :: !items[i].kind.KObject?
    ensures Holders(items, a) == 0
  {
    if items != [] {
      HoldersOfPlain(items[..|items| - 1], a);
    }
  }

  lemma {:induction false} HolderOfObject(items: seq<Item>, i: nat)
    requires i < |items| && items[i].kind.KObject? && items[i].word.Ref?
    ensures Holders(items, items[i].word.addr) > 0
  {
    if i < |items| - 1 {
      HolderOfObject(items[..|items| - 1], i);
    }
  }

  /** A message and its dup both destroyed: every allocation is freed exactly once if
      and only if the message held no object. */
  method DestroyBoth(msg: AMessage)
    requires msg.Valid() && Balanced(msg)
    modifies msg, msg.heap
    ensures (forall a: nat | a < |msg.heap.cells| :: msg.heap.frees[a] == 1) <==> !HasObject(old(msg.Contents()))
  {
    ghost var items, n := msg.mItems[..msg.mNumItems], |msg.heap.cells|;
    var copy := msg.Dup();
    copy.Clear();
    msg.Clear();
    ghost var m := |msg.heap.cells|;
    assert forall a: nat :: msg.heap.frees[a] == New(a, 0, n) + New(a, n, m) + Holders(items, a);
    var a := FindHolder(items, old(msg.heap.cells));
    if a.Some? {
      assert msg.heap.frees[a.value] != 1;
    }
  }

  /** An address that the copy shares, unless there is no object item. */
  lemma FindHolder(items: seq<Item>, cells: seq<int>) returns (a: Option<nat>)
    requires forall i | 0 <= i < |items| :: WellTyped(items[i], cells)
    ensures a.Some? <==> HasObject(EntriesOf(items, cells))
    ensures a.Some? ==> a.value < |cells| && Holders(items, a.value) > 0
    ensures a.None? ==> forall b: nat :: Holders(items, b) == 0
  {
    var es := EntriesOf(items, cells);
    if HasObject(es) {
      var i :| 0 <= i < |es| && es[i].kind.KObject?;
      HolderOfObject(items, i);
      a := Some(items[i].word.addr);
    } else {
      a := None;
      assert forall k | 0 <= k < |items| :: items[k].kind == es[k].kind;
      forall b: nat
        ensures Holders(items, b) == 0
      {
        HoldersOfPlain(items, b);
      }
    }
  }
}
