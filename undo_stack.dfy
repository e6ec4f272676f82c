/**
 * The undo history: a last-in first-out stack of packed snapshots kept
 * within a byte budget. A push appends the newest snapshot, then evicts the
 * oldest ones while the running byte count is over budget; a pop hands back
 * the newest snapshot but leaves the running count as it was, so the count
 * is only an upper bound on what the stack holds. Snapshots are plain byte
 * sequences here (packing a sandbox into bytes is not part of this module).
 */
module Undo {
  import opened Bytes
  import opened Wrappers
  import opened JavaData

  /** The budget of `new UndoStack()`. */
  const DEFAULT_MAX_BYTES := 150000

  /** The exception `LinkedList.removeFirst` throws on an empty list. */
  datatype Thrown = NoSuchElement

  /** The number of bytes the items hold. */
  function Size(items: seq<seq<byte>>): nat {
    if items == [] then 0 else |items[0]| + Size(items[1..])
  }

  lemma {:induction false} SizeAppend(a: seq<seq<byte>>, b: seq<seq<byte>>)
    ensures Size(a + b) == Size(a) + Size(b)
  {
    if a == [] {
      assert a + b == b;
    } else {
      assert (a + b)[1..] == a[1..] + b;
      SizeAppend(a[1..], b);
    }
  }

  /**
   * The eviction loop of `push`: while the running count is over budget,
   * drop the oldest item and subtract its length. When the items run out
   * first, `removeFirst` throws and the count stays over budget.
   */
  function Evict(items: seq<seq<byte>>, total: int, maxBytes: int): (seq<seq<byte>>, int)
    decreases |items|
  {
    if total <= maxBytes || items == [] then (items, total)
    else Evict(items[1..], total - |items[0]|, maxBytes)
  }

  /**
   * What eviction does, stated without the loop: it drops the `d` oldest
   * items and their bytes, where `d` is the fewest drops that bring the
   * count within budget (or all of them, when no number of drops does).
   */
  lemma {:induction false} EvictDropsFewestOldest(items: seq<seq<byte>>, total: int, maxBytes: int) returns (d: nat)
    ensures d <= |items|
    ensures Evict(items, total, maxBytes) == (items[d..], total - Size(items[..d]))
    ensures forall j :: 0 <= j < d ==> total - Size(items[..j]) > maxBytes
    ensures d < |items| ==> total - Size(items[..d]) <= maxBytes
    decreases |items|
  {
    assert items[..0] == [];
    if total <= maxBytes || items == [] {
      d := 0;
    } else {
      var e := EvictDropsFewestOldest(items[1..], total - |items[0]|, maxBytes);
      d := e + 1;
      assert items[1..][e..] == items[d..];
      forall j | 1 <= j <= d
        ensures total - Size(items[..j]) == total - |items[0]| - Size(items[1..][..j - 1])
      {
        assert items[..j][1..] == items[1..][..j - 1];
      }
    }
  }

  /** Eviction keeps the gap between the running count and the bytes held. */
  lemma EvictKeepsSlack(items: seq<seq<byte>>, total: int, maxBytes: int)
    ensures Evict(items, total, maxBytes).1 - Size(Evict(items, total, maxBytes).0) == total - Size(items)
  {
    var d := EvictDropsFewestOldest(items, total, maxBytes);
    assert items == items[..d] + items[d..];
    SizeAppend(items[..d], items[d..]);
  }

  /** When that gap is within budget, eviction ends within budget instead of throwing. */
  lemma EvictFits(items: seq<seq<byte>>, total: int, maxBytes: int)
    requires total - Size(items) <= maxBytes
    ensures Evict(items, total, maxBytes).1 <= maxBytes
  {
    var d := EvictDropsFewestOldest(items, total, maxBytes);
    if d == |items| {
      assert items[..d] == items;
    }
  }

  /** The newest item is the last one evicted: whatever survives ends with it. */
  lemma EvictKeepsNewest(items: seq<seq<byte>>, newest: seq<byte>, total: int, maxBytes: int)
    requires Evict(items + [newest], total, maxBytes).0 != []
    ensures var kept := Evict(items + [newest], total, maxBytes).0; kept[|kept| - 1] == newest
  {
    var d := EvictDropsFewestOldest(items + [newest], total, maxBytes);
  }

  /** An item larger than the whole budget, pushed when the count is exact, empties the stack and zeroes the count. */
  lemma {:induction false} OversizedEmpties(items: seq<seq<byte>>, item: seq<byte>, maxBytes: int)
    requires |item| > maxBytes
    ensures Evict(items + [item], Size(items) + |item|, maxBytes) == ([], 0)
  {
    if items == [] {
      assert Evict([item][1..], 0, maxBytes) == ([], 0);
    } else {
      assert (items + [item])[1..] == items[1..] + [item];
      OversizedEmpties(items[1..], item, maxBytes);
    }
  }

  // The stream format of `write`: the item count as a byte, then each item
  // as its length (an int) followed by its bytes.

  function ItemBytes(item: seq<byte>): seq<byte> {
    WriteInt(|item|) + item
  }

  function ItemsBytes(items: seq<seq<byte>>): seq<byte> {
    if items == [] then [] else ItemBytes(items[0]) + ItemsBytes(items[1..])
  }

  function Encode(items: seq<seq<byte>>): seq<byte> {
    WriteByte(|items|) + ItemsBytes(items)
  }

  lemma {:induction false} ItemsBytesSnoc(items: seq<seq<byte>>, item: seq<byte>)
    ensures ItemsBytes(items + [item]) == ItemsBytes(items) + ItemBytes(item)
  {
    if items == [] {
      assert [] + [item] == [item];
    } else {
      assert (items + [item])[1..] == items[1..] + [item];
      ItemsBytesSnoc(items[1..], item);
    }
  }

  /**
   * `in.read(item)` into a fresh array of `n` bytes: as many bytes as the
   * stream still holds, up to `n`; the rest of the array stays zero.
   */
  function Fill(n: nat, s: seq<byte>): (r: Got<seq<byte>>)
    ensures |r.value| == n
    ensures n <= |s| ==> r == Got(s[..n], s[n..])
    ensures n > |s| ==> r.rest == [] && r.value[..|s|] == s
  {
    if n <= |s| then Got(s[..n], s[n..])
    else Got(s + seq(n - |s|, _ => 0), [])
  }

  /** One item as `read` takes it: an int length, then an array of that many bytes filled from the stream. */
  function ReadItem(s: seq<byte>): (r: Result<Got<seq<byte>>, IoError>)
    ensures ReadInt(s).Err? ==> r == Err(EndOfStream)
    ensures ReadInt(s).Ok? && ReadInt(s).value.value < 0 ==> r == Err(NegativeSize)
    ensures ReadInt(s).Ok? && 0 <= ReadInt(s).value.value ==> r == Ok(Fill(ReadInt(s).value.value, s[4..]))
  {
    var n :- ReadInt(s);
    if n.value < 0 then Err(NegativeSize) else Ok(Fill(n.value, n.rest))
  }

  /** A written item comes back whole, with the stream positioned after it. */
  lemma ReadItemBack(item: seq<byte>, tail: seq<byte>)
    requires |item| < 0x8000_0000
    ensures ReadItem(ItemBytes(item) + tail) == Ok(Got(item, tail))
  {
    Regroup(WriteInt(|item|), item, tail);
    ReadWriteInt(|item|, item + tail);
    Split(item, tail);
  }

  /**
   * The loop of `read` from some point on: `count` more items, each taken
   * by `read` (which is `ReadItem`) and pushed onto the stack
   * `(items, total)` whose budget is `maxBytes`. A push cannot throw here
   * because the budget of a stack `read` makes is not negative.
   */
  function ReadItems(count: int, s: seq<byte>, items: seq<seq<byte>>, total: int, maxBytes: int,
                     read: seq<byte> -> Result<Got<seq<byte>>, IoError>): Result<Got<(seq<seq<byte>>, int)>, IoError>
    decreases count
  {
    if count <= 0 then Ok(Got((items, total), s))
    else
      var item :- read(s);
      var pushed := Evict(items + [item.value], total + |item.value|, maxBytes);
      ReadItems(count - 1, item.rest, pushed.0, pushed.1, maxBytes, read)
  }

  /** `read`: the signed count byte, then that many items pushed onto a stack with the default budget. */
  function Decode(s: seq<byte>): Result<Got<(seq<seq<byte>>, int)>, IoError> {
    var count :- ReadByte(s);
    ReadItems(count.value, count.rest, [], 0, DEFAULT_MAX_BYTES, ReadItem)
  }

  /** `read` takes back any one item that `write` wrote, whatever follows it. */
  ghost predicate TakesItems(read: seq<byte> -> Result<Got<seq<byte>>, IoError>) {
    forall item: seq<byte>, tail: seq<byte> :: |item| < 0x8000_0000 ==> read(ItemBytes(item) + tail) == Ok(Got(item, tail))
  }

  /** `ReadItem` is such a reader. */
  lemma ReadItemTakesItems()
    ensures TakesItems(ReadItem)
  {
    forall item: seq<byte>, tail: seq<byte> | |item| < 0x8000_0000
      ensures ReadItem(ItemBytes(item) + tail) == Ok(Got(item, tail))
    {
      ReadItemBack(item, tail);
    }
  }

  /** Items that fit the budget together are read back and pushed without eviction. */
  lemma {:induction false} ReadItemsEncoded(items: seq<seq<byte>>, kept: seq<seq<byte>>, total: int, maxBytes: int, rest: seq<byte>,
                                            read: seq<byte> -> Result<Got<seq<byte>>, IoError>)
    requires TakesItems(read)
    requires 0 <= total && total + Size(items) <= maxBytes < 0x8000_0000
    ensures ReadItems(|items|, ItemsBytes(items) + rest, kept, total, maxBytes, read) == Ok(Got((kept + items, total + Size(items)), rest))
  {
    if items == [] {
      assert ItemsBytes(items) + rest == rest;
      assert kept + items == kept;
    } else {
      var item, later := items[0], items[1..];
      var tail := ItemsBytes(later) + rest;
      assert Size(items) == |item| + Size(later);
      assert read(ItemsBytes(items) + rest) == Ok(Got(item, tail)) by {
        Regroup(ItemBytes(item), ItemsBytes(later), rest);
      }
      assert Evict(kept + [item], total + |item|, maxBytes) == (kept + [item], total + |item|);
      ReadItemsEncoded(later, kept + [item], total + |item|, maxBytes, rest, read);
      assert kept + [item] + later == kept + items;
    }
  }

  /**
   * `read(write(s))` restores the items in order, with the running count
   * equal to the bytes they hold, when there are fewer than 128 of them
   * (the count travels as a signed byte) and they fit the default budget.
   */
  lemma RoundTrip(items: seq<seq<byte>>, rest: seq<byte>)
    requires |items| < 0x80 && Size(items) <= DEFAULT_MAX_BYTES
    ensures Decode(Encode(items) + rest) == Ok(Got((items, Size(items)), rest))
  {
    ReadCount(items, rest);
    ReadItemTakesItems();
    ReadItemsEncoded(items, [], 0, DEFAULT_MAX_BYTES, rest, ReadItem);
    assert [] + items == items;
  }

  /** The count byte comes back as the number of items, which `read` then goes on to read. */
  lemma ReadCount(items: seq<seq<byte>>, rest: seq<byte>)
    requires |items| < 0x80
    ensures Decode(Encode(items) + rest) == ReadItems(|items|, ItemsBytes(items) + rest, [], 0, DEFAULT_MAX_BYTES, ReadItem)
  {
    var tail := ItemsBytes(items) + rest;
    assert Encode(items) + rest == WriteByte(|items|) + tail;
    ReadWriteByte(|items|, tail);
  }

  class UndoStack {
    const maxBytes: int
    var stack: seq<seq<byte>>
    var totalBytes: int

    /**
     * The running count covers the bytes held; it is within budget, unless
     * the budget is negative, in which case the stack is empty and the
     * count zero.
     */
    ghost predicate Valid()
      reads this
    {
      Size(stack) <= totalBytes && (totalBytes <= maxBytes || (stack == [] && totalBytes == 0))
    }

    /** `new UndoStack(maxBytes)`: an empty stack with a zero count. */
    constructor (maxBytes: int)
      ensures this.maxBytes == maxBytes && stack == [] && totalBytes == 0 && Valid()
    {
      this.maxBytes := maxBytes;
      stack := [];
      totalBytes := 0;
    }

    /** `new UndoStack()`: the same with the default budget. */
    constructor Default()
      ensures maxBytes == DEFAULT_MAX_BYTES && stack == [] && totalBytes == 0 && Valid()
    {
      maxBytes := DEFAULT_MAX_BYTES;
      stack := [];
      totalBytes := 0;
    }

    /**
     * `push(bytes)`: append, add the length to the count, then evict from
     * the front while over budget. Answers whether anything is left; the
     * push throws only when the budget is negative.
     */
    method Push(bytes: seq<byte>) returns (r: Result<bool, Thrown>)
      requires Valid()
      modifies this
      ensures Valid()
      ensures (stack, totalBytes) == Evict(old(stack) + [bytes], old(totalBytes) + |bytes|, maxBytes)
      ensures r.Ok? <==> old(totalBytes) <= maxBytes
      ensures 0 <= maxBytes ==> r.Ok?
      ensures r.Ok? ==> totalBytes <= maxBytes && (r.value <==> stack != [])
      ensures r.Ok? && r.value ==> stack[|stack| - 1] == bytes
      ensures r.Err? ==> stack == [] && totalBytes == 0
    {
      ghost var items, total := old(stack) + [bytes], old(totalBytes) + |bytes|;
      SizeAppend(stack, [bytes]);
      assert Size([bytes]) == |bytes|;
      EvictKeepsSlack(items, total, maxBytes);
      if totalBytes <= maxBytes {
        EvictFits(items, total, maxBytes);
      }
      stack := stack + [bytes];
      totalBytes := totalBytes + |bytes|;
      while totalBytes > maxBytes
        invariant Evict(stack, totalBytes, maxBytes) == Evict(items, total, maxBytes)
        decreases |stack|
      {
        if stack == [] {
          return Err(NoSuchElement);
        }
        totalBytes := totalBytes - |stack[0]|;
        stack := stack[1..];
      }
      if stack != [] {
        EvictKeepsNewest(old(stack), bytes, total, maxBytes);
      }
      return Ok(stack != []);
    }

    /**
     * `pop()`: nothing on an empty stack; otherwise the newest item comes
     * off and is handed back. The count is left as it was.
     */
    method Pop() returns (r: Option<seq<byte>>)
      requires Valid()
      modifies this`stack
      ensures Valid() && totalBytes == old(totalBytes)
      ensures old(stack) == [] ==> r == None && stack == []
      ensures old(stack) != [] ==>
        r == Some(old(stack)[|old(stack)| - 1]) && stack == old(stack)[..|old(stack)| - 1]
    {
      if stack == [] {
        return None;
      }
      var last := stack[|stack| - 1];
      assert stack == stack[..|stack| - 1] + [last];
      SizeAppend(stack[..|stack| - 1], [last]);
      stack := stack[..|stack| - 1];
      return Some(last);
    }

    /** `clear()`: no items and a zero count. */
    method Clear()
      modifies this`stack, this`totalBytes
      ensures stack == [] && totalBytes == 0 && Valid()
    {
      totalBytes := 0;
      stack := [];
    }

    /** `isEmpty()`: whether no snapshot is held, whatever the count says. */
    method IsEmpty() returns (b: bool)
      ensures b <==> |stack| == 0
    {
      b := stack == [];
    }

    /** `write(out)`: the bytes of `Encode`, item by item from the oldest. */
    method Write() returns (out: seq<byte>)
      ensures out == Encode(stack)
    {
      out := WriteByte(|stack|);
      for i := 0 to |stack|
        invariant out == WriteByte(|stack|) + ItemsBytes(stack[..i])
      {
        assert stack[..i + 1] == stack[..i] + [stack[i]];
        ItemsBytesSnoc(stack[..i], stack[i]);
        out := out + ItemBytes(stack[i]);
      }
      assert stack[..|stack|] == stack;
    }

    /**
     * `UndoStack.read(in)`: a fresh stack with the default budget onto which
     * the items read are pushed in order, or the exception the stream throws.
     */
    static method Read(s: seq<byte>) returns (r: Result<Got<UndoStack>, IoError>)
      ensures Decode(s).Err? ==> r == Err(Decode(s).error)
      ensures Decode(s).Ok? ==> r.Ok? && r.value.rest == Decode(s).value.rest
      ensures Decode(s).Ok? ==> fresh(r.value.value) && r.value.value.Valid() && r.value.value.maxBytes == DEFAULT_MAX_BYTES
      ensures Decode(s).Ok? ==> (r.value.value.stack, r.value.value.totalBytes) == Decode(s).value.value
    {
      var count := ReadByte(s);
      if count.Err? {
        return Err(count.error);
      }
      var undo := new UndoStack.Default();
      var left, cursor := count.value.value, count.value.rest;
      while left > 0
        invariant fresh(undo) && undo.Valid() && undo.maxBytes == DEFAULT_MAX_BYTES
        invariant Decode(s) == ReadItems(left, cursor, undo.stack, undo.totalBytes, DEFAULT_MAX_BYTES, ReadItem)
        decreases left
      {
        var next := ReadItem(cursor);
        if next.Err? {
          return Err(next.error);
        }
        var item := next.value;
        var pushed := undo.Push(item.value);
        cursor := item.rest;
        left := left - 1;
      }
      return Ok(Got(undo, cursor));
    }
  }
}
