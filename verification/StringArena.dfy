/**
 * Strings in use side by side: however they are built, copied, moved, assigned, extended and
 * destroyed, each text is what the operations say, and the live heap blocks are exactly those
 * the strings own, one owner each.
 */
module StringArena {
  import opened SmallString

  type Text = seq<Octet>

  datatype Op =
    | Construct(text: Text)
    | CopyConstruct(from: nat)
    | MoveConstruct(from: nat)
    | Assign(to: nat, from: nat)
    | MoveAssign(to: nat, from: nat)
    | Append(to: nat, from: nat)
    | Destroy(which: nat)

  /** What the source asks of a caller: existing strings, no overflow of `size_type`, no aliased `+=`. */
  predicate Legal(texts: seq<Text>, op: Op) {
    match op
    case Construct(text) => |text| < WORD - 1
    case CopyConstruct(j) => j < |texts|
    case MoveConstruct(j) => j < |texts|
    case Assign(i, j) => i < |texts| && j < |texts|
    case MoveAssign(i, j) => i < |texts| && j < |texts|
    case Append(i, j) => i < |texts| && j < |texts| && i != j && |texts[i]| + |texts[j]| < WORD - 1
    case Destroy(i) => i < |texts|
  }

  /** The effect of an operation on the texts. */
  function Effect(texts: seq<Text>, op: Op): (r: seq<Text>)
    requires Legal(texts, op)
  {
    match op
    case Construct(text) => texts + [text]
    case CopyConstruct(j) => texts + [texts[j]]
    case MoveConstruct(j) => texts[j := []] + [texts[j]]
    case Assign(i, j) => texts[i := texts[j]]
    case MoveAssign(i, j) => if i == j then texts else texts[i := texts[j]][j := []]
    case Append(i, j) => texts[i := texts[i] + texts[j]]
    case Destroy(i) => texts[..i] + texts[i + 1..]
  }

  // ---------------------------------------------------------------------------------------
  // Who owns which block
  // ---------------------------------------------------------------------------------------

  type Blocks = set<array<Octet>>

  /** Every live block has exactly one owner, and nothing else is owned. */
  ghost predicate Partition(live: Blocks, owners: seq<Blocks>) {
    && (forall i, j :: 0 <= i < j < |owners| ==> owners[i] !! owners[j])
    && (forall i :: 0 <= i < |owners| ==> owners[i] <= live)
    && (forall a :: a in live ==> exists i :: 0 <= i < |owners| && a in owners[i])
  }

  lemma PartitionReplace(live: Blocks, owners: seq<Blocks>, i: nat, mine: Blocks)
    requires Partition(live, owners) && i < |owners| && (mine == owners[i] || mine !! live)
    ensures Partition(live - owners[i] + mine, owners[i := mine])
  {
    var owners', live' := owners[i := mine], live - owners[i] + mine;
    forall a | a in live' ensures exists k :: 0 <= k < |owners'| && a in owners'[k] {
      if a in mine { assert a in owners'[i]; }
      else { var k :| 0 <= k < |owners| && a in owners[k]; assert a in owners'[k]; }
    }
    forall k | 0 <= k < |owners'| ensures owners'[k] <= live' {
      if k < i { assert owners[k] !! owners[i]; } else if k > i { assert owners[i] !! owners[k]; }
    }
  }

  lemma PartitionAdd(live: Blocks, owners: seq<Blocks>, mine: Blocks)
    requires Partition(live, owners) && mine !! live
    ensures Partition(live + mine, owners + [mine])
  {
    var owners', live' := owners + [mine], live + mine;
    forall a | a in live' ensures exists k :: 0 <= k < |owners'| && a in owners'[k] {
      if a in mine { assert a in owners'[|owners|]; }
      else { var k :| 0 <= k < |owners| && a in owners[k]; assert a in owners'[k]; }
    }
  }

  lemma PartitionRemove(live: Blocks, owners: seq<Blocks>, i: nat)
    requires Partition(live, owners) && i < |owners|
    ensures Partition(live - owners[i], owners[..i] + owners[i + 1..])
  {
    var owners', live' := owners[..i] + owners[i + 1..], live - owners[i];
    forall k | 0 <= k < |owners'| ensures owners'[k] == owners[if k < i then k else k + 1] {}
    forall a | a in live' ensures exists k :: 0 <= k < |owners'| && a in owners'[k] {
      var k :| 0 <= k < |owners| && a in owners[k];
      assert a in owners'[if k < i then k else k - 1];
    }
  }

  lemma OwnersApart(live: Blocks, owners: seq<Blocks>, k: nat, l: nat)
    requires Partition(live, owners) && k < |owners| && l < |owners| && k != l
    ensures owners[k] !! owners[l] && owners[k] <= live
  {
    assert owners[if k < l then k else l] !! owners[if k < l then l else k];
  }

  lemma PartitionMove(live: Blocks, owners: seq<Blocks>, i: nat, j: nat)
    requires Partition(live, owners) && i < |owners| && j < |owners| && i != j
    ensures Partition(live - owners[i], owners[i := owners[j]][j := {}])
  {
    var owners', live' := owners[i := owners[j]][j := {}], live - owners[i];
    forall k, l | 0 <= k < l < |owners'| ensures owners'[k] !! owners'[l] {
      if k != j && l != j {
        OwnersApart(live, owners, if k == i then j else k, if l == i then j else l);
      }
    }
    forall k | 0 <= k < |owners'| ensures owners'[k] <= live' {
      if k != j { OwnersApart(live, owners, if k == i then j else k, i); }
    }
    forall a | a in live' ensures exists k :: 0 <= k < |owners'| && a in owners'[k] {
      var k :| 0 <= k < |owners| && a in owners[k];
      assert a in owners'[if k == j then i else k];
    }
  }

  lemma MovedPartition(live: Blocks, owners: seq<Blocks>, j: nat)
    requires Partition(live, owners) && j < |owners|
    ensures Partition(live, owners[j := {}] + [owners[j]])
  {
    var none: Blocks := {};
    PartitionAdd(live, owners, none);
    assert live + none == live;
    var more := owners + [none];
    PartitionMove(live, more, |owners|, j);
    assert live - more[|owners|] == live;
    assert owners[j := none] + [owners[j]] == more[|owners| := more[j]][j := none];
  }

  // ---------------------------------------------------------------------------------------
  // Strings side by side
  // ---------------------------------------------------------------------------------------

  /** The strings hold the given texts and own the given blocks, which together are all live blocks. */
  ghost predicate InOrder(heap: Heap, strings: seq<String>, texts: seq<Text>, owners: seq<Blocks>)
    reads *
  {
    && |texts| == |owners| == |strings|
    && (forall i, j :: 0 <= i < j < |strings| ==> strings[i] != strings[j] && strings[i].buf != strings[j].buf)
    && (forall i :: 0 <= i < |strings| ==> strings[i].buf !in heap.live)
    && Partition(heap.live, owners)
    && (forall k :: 0 <= k < |strings| ==> strings[k].Is(texts[k], owners[k]))
  }

  lemma Apart(heap: Heap, strings: seq<String>, texts: seq<Text>, owners: seq<Blocks>, i: nat, k: nat)
    requires InOrder(heap, strings, texts, owners) && i < |strings| && k < |strings| && i != k
    ensures strings[i].Repr() !! strings[k].Repr()
  {
    assert owners[if i < k then i else k] !! owners[if i < k then k else i];
    assert owners[i] <= heap.live && owners[k] <= heap.live;
  }

  lemma AllApart(heap: Heap, strings: seq<String>, texts: seq<Text>, owners: seq<Blocks>, i: nat)
    requires InOrder(heap, strings, texts, owners) && i < |strings|
    ensures forall k :: 0 <= k < |strings| && k != i ==> strings[k].Repr() !! strings[i].Repr()
  {
    forall k | 0 <= k < |strings| && k != i ensures strings[k].Repr() !! strings[i].Repr() {
      Apart(heap, strings, texts, owners, k, i);
    }
  }

  /** A further string with its own object, buffer and block. */
  lemma Added(heap: Heap, strings: seq<String>, texts: seq<Text>, owners: seq<Blocks>, s: String, text: Text)
    requires |texts| == |owners| == |strings|
    requires forall i, j :: 0 <= i < j < |strings| ==> strings[i] != strings[j] && strings[i].buf != strings[j].buf
    requires forall i :: 0 <= i < |strings| ==> strings[i].buf !in heap.live
    requires forall k :: 0 <= k < |strings| ==> strings[k].Is(texts[k], owners[k])
    requires forall k :: 0 <= k < |strings| ==> strings[k] != s && strings[k].buf != s.buf
    requires s.buf !in heap.live && s.Is(text, s.Owned())
    requires Partition(heap.live, owners + [s.Owned()])
    ensures InOrder(heap, strings + [s], texts + [text], owners + [s.Owned()])
  {
  }

  /** One string has been given another text; the others are as they were. */
  lemma Replaced(heap: Heap, strings: seq<String>, texts: seq<Text>, owners: seq<Blocks>, i: nat, text: Text, live: Blocks)
    requires |texts| == |owners| == |strings| && i < |strings|
    requires forall i, j :: 0 <= i < j < |strings| ==> strings[i] != strings[j] && strings[i].buf != strings[j].buf
    requires forall i :: 0 <= i < |strings| ==> strings[i].buf !in heap.live
    requires forall k :: 0 <= k < |strings| && k != i ==> strings[k].Is(texts[k], owners[k])
    requires strings[i].Is(text, strings[i].Owned())
    requires Partition(live, owners) && Settled(heap.live, live, owners[i], strings[i].Owned())
    ensures InOrder(heap, strings, texts[i := text], owners[i := strings[i].Owned()])
  {
    PartitionReplace(live, owners, i, strings[i].Owned());
  }

  /** One string is gone, and so is its block. */
  lemma Removed(heap: Heap, strings: seq<String>, texts: seq<Text>, owners: seq<Blocks>, i: nat, live: Blocks)
    requires |texts| == |owners| == |strings| && i < |strings|
    requires forall i, j :: 0 <= i < j < |strings| ==> strings[i] != strings[j] && strings[i].buf != strings[j].buf
    requires forall i :: 0 <= i < |strings| ==> strings[i].buf !in heap.live
    requires forall k :: 0 <= k < |strings| ==> strings[k].Is(texts[k], owners[k])
    requires Partition(live, owners) && heap.live == live - owners[i]
    ensures InOrder(heap, strings[..i] + strings[i + 1..], texts[..i] + texts[i + 1..], owners[..i] + owners[i + 1..])
  {
    PartitionRemove(live, owners, i);
    var rest := strings[..i] + strings[i + 1..];
    forall k | 0 <= k < |rest| ensures rest[k] == strings[if k < i then k else k + 1] {}
  }

  /** The blocks change hands as far as `strings[i]` is concerned; its new one was not live before. */
  ghost predicate Settled(live': Blocks, live: Blocks, was: Blocks, mine: Blocks) {
    live' == live - was + mine && (mine == was || mine !! live)
  }

  method AssignOne(heap: Heap, strings: seq<String>, ghost texts: seq<Text>, ghost owners: seq<Blocks>, i: nat, j: nat)
    requires InOrder(heap, strings, texts, owners) && Legal(texts, Assign(i, j))
    modifies heap, strings[i], strings[i].buf
    ensures strings[i].Is(texts[j], strings[i].Owned())
    ensures forall k :: 0 <= k < |strings| && k != i ==> strings[k].Is(texts[k], owners[k])
    ensures Settled(heap.live, old(heap.live), owners[i], strings[i].Owned()) && fresh(heap.live - old(heap.live))
  {
    AllApart(heap, strings, texts, owners, i);
    assert strings[i].Is(texts[i], owners[i]) && strings[j].Is(texts[j], owners[j]);
    strings[i].Assign(strings[j], heap);
    forall k | 0 <= k < |strings| && k != i ensures strings[k].Is(texts[k], owners[k]) {
      assert old(strings[k].Is(texts[k], owners[k]));
    }
  }

  method AppendOne(heap: Heap, strings: seq<String>, ghost texts: seq<Text>, ghost owners: seq<Blocks>, i: nat, j: nat)
    requires InOrder(heap, strings, texts, owners) && Legal(texts, Append(i, j))
    modifies heap, strings[i], strings[i].buf, strings[i].Owned()
    ensures strings[i].Is(texts[i] + texts[j], strings[i].Owned())
    ensures forall k :: 0 <= k < |strings| && k != i ==> strings[k].Is(texts[k], owners[k])
    ensures Settled(heap.live, old(heap.live), owners[i], strings[i].Owned()) && fresh(heap.live - old(heap.live))
  {
    AllApart(heap, strings, texts, owners, i);
    assert strings[i].Is(texts[i], owners[i]) && strings[j].Is(texts[j], owners[j]);
    strings[i].Append(strings[j], heap);
    forall k | 0 <= k < |strings| && k != i ensures strings[k].Is(texts[k], owners[k]) {
      assert old(strings[k].Is(texts[k], owners[k]));
    }
  }

  method DoAssign(heap: Heap, strings: seq<String>, ghost texts: seq<Text>, ghost owners: seq<Blocks>, i: nat, j: nat)
    returns (ghost owners': seq<Blocks>)
    requires InOrder(heap, strings, texts, owners) && Legal(texts, Assign(i, j))
    modifies heap, strings[i], strings[i].buf
    ensures InOrder(heap, strings, Effect(texts, Assign(i, j)), owners')
    ensures fresh(heap.live - old(heap.live))
  {
    AssignOne(heap, strings, texts, owners, i, j);
    Replaced(heap, strings, texts, owners, i, texts[j], old(heap.live));
    owners' := owners[i := strings[i].Owned()];
  }

  method DoMoveAssign(heap: Heap, strings: seq<String>, ghost texts: seq<Text>, ghost owners: seq<Blocks>, i: nat, j: nat)
    returns (ghost owners': seq<Blocks>)
    requires InOrder(heap, strings, texts, owners) && Legal(texts, MoveAssign(i, j))
    modifies heap, strings[i], strings[i].buf, strings[j], strings[j].buf
    ensures InOrder(heap, strings, Effect(texts, MoveAssign(i, j)), owners') && heap.live <= old(heap.live)
  {
    AllApart(heap, strings, texts, owners, i);
    AllApart(heap, strings, texts, owners, j);
    assert strings[i].Is(texts[i], owners[i]) && strings[j].Is(texts[j], owners[j]);
    strings[i].MoveAssign(strings[j], heap);
    if i == j {
      owners' := owners;
    } else {
      PartitionMove(old(heap.live), owners, i, j);
      owners' := owners[i := owners[j]][j := {}];
    }
    forall k | 0 <= k < |strings| && k != i && k != j ensures strings[k].Is(texts[k], owners[k]) {
      assert old(strings[k].Is(texts[k], owners[k]));
    }
  }

  method DoAppend(heap: Heap, strings: seq<String>, ghost texts: seq<Text>, ghost owners: seq<Blocks>, i: nat, j: nat)
    returns (ghost owners': seq<Blocks>)
    requires InOrder(heap, strings, texts, owners) && Legal(texts, Append(i, j))
    modifies heap, strings[i], strings[i].buf, strings[i].Owned()
    ensures InOrder(heap, strings, Effect(texts, Append(i, j)), owners')
    ensures fresh(heap.live - old(heap.live))
  {
    AppendOne(heap, strings, texts, owners, i, j);
    Replaced(heap, strings, texts, owners, i, texts[i] + texts[j], old(heap.live));
    owners' := owners[i := strings[i].Owned()];
  }

  ghost predicate Extends(strings: seq<String>, strings': seq<String>) {
    |strings'| == |strings| + 1 && strings'[..|strings|] == strings
  }

  ghost function NewObjects(strings: seq<String>, strings': seq<String>): (r: set<object>)
    requires |strings'| == |strings| + 1
  {
    {strings'[|strings|], strings'[|strings|].buf}
  }

  method DoConstruct(heap: Heap, strings: seq<String>, ghost texts: seq<Text>, ghost owners: seq<Blocks>, text: Text)
    returns (strings': seq<String>, ghost owners': seq<Blocks>)
    requires InOrder(heap, strings, texts, owners) && Legal(texts, Construct(text))
    modifies heap
    ensures InOrder(heap, strings', Effect(texts, Construct(text)), owners') && Extends(strings, strings')
    ensures fresh(NewObjects(strings, strings')) && fresh(heap.live - old(heap.live))
  {
    var bytes := new Octet[|text|](i requires 0 <= i < |text| => text[i]);
    assert bytes[..|text|] == text;
    var s := new String.FromBytes(bytes, |text|, heap);
    PartitionAdd(old(heap.live), owners, s.Owned());
    forall k | 0 <= k < |strings| ensures strings[k].Is(texts[k], owners[k]) {
      assert old(strings[k].Is(texts[k], owners[k]));
    }
    Added(heap, strings, texts, owners, s, text);
    strings', owners' := strings + [s], owners + [s.Owned()];
  }

  method DoCopyConstruct(heap: Heap, strings: seq<String>, ghost texts: seq<Text>, ghost owners: seq<Blocks>, j: nat)
    returns (strings': seq<String>, ghost owners': seq<Blocks>)
    requires InOrder(heap, strings, texts, owners) && Legal(texts, CopyConstruct(j))
    modifies heap
    ensures InOrder(heap, strings', Effect(texts, CopyConstruct(j)), owners') && Extends(strings, strings')
    ensures fresh(NewObjects(strings, strings')) && fresh(heap.live - old(heap.live))
  {
    assert strings[j].Is(texts[j], owners[j]);
    var s := new String.Copy(strings[j], heap);
    PartitionAdd(old(heap.live), owners, s.Owned());
    forall k | 0 <= k < |strings| ensures strings[k].Is(texts[k], owners[k]) {
      assert old(strings[k].Is(texts[k], owners[k]));
    }
    Added(heap, strings, texts, owners, s, texts[j]);
    strings', owners' := strings + [s], owners + [s.Owned()];
  }

  method DoMoveConstruct(heap: Heap, strings: seq<String>, ghost texts: seq<Text>, ghost owners: seq<Blocks>, j: nat)
    returns (strings': seq<String>, ghost owners': seq<Blocks>)
    requires InOrder(heap, strings, texts, owners) && Legal(texts, MoveConstruct(j))
    modifies strings[j], strings[j].buf
    ensures InOrder(heap, strings', Effect(texts, MoveConstruct(j)), owners') && Extends(strings, strings')
    ensures fresh(NewObjects(strings, strings'))
  {
    AllApart(heap, strings, texts, owners, j);
    assert strings[j].Is(texts[j], owners[j]);
    var s := new String.Move(strings[j]);
    ghost var texts1, owners1 := texts[j := []], owners[j := {}];
    MovedPartition(heap.live, owners, j);
    forall k | 0 <= k < |strings| ensures strings[k].Is(texts1[k], owners1[k]) {
      assert k != j ==> old(strings[k].Is(texts[k], owners[k]));
    }
    Added(heap, strings, texts1, owners1, s, texts[j]);
    strings', owners' := strings + [s], owners1 + [s.Owned()];
  }

  method DoDestroy(heap: Heap, strings: seq<String>, ghost texts: seq<Text>, ghost owners: seq<Blocks>, i: nat)
    returns (strings': seq<String>, ghost owners': seq<Blocks>)
    requires InOrder(heap, strings, texts, owners) && Legal(texts, Destroy(i))
    modifies heap
    ensures strings' == strings[..i] + strings[i + 1..]
    ensures InOrder(heap, strings', Effect(texts, Destroy(i)), owners') && heap.live <= old(heap.live)
  {
    assert strings[i].Is(texts[i], owners[i]);
    strings[i].Destroy(heap);
    forall k | 0 <= k < |strings| ensures strings[k].Is(texts[k], owners[k]) {
      assert old(strings[k].Is(texts[k], owners[k]));
    }
    Removed(heap, strings, texts, owners, i, old(heap.live));
    strings', owners' := strings[..i] + strings[i + 1..], owners[..i] + owners[i + 1..];
  }

  // ---------------------------------------------------------------------------------------
  // Any sequence of operations
  // ---------------------------------------------------------------------------------------

  function EffectAll(ops: seq<Op>): (texts: seq<Text>)
    requires AllLegal(ops)
    decreases |ops|, 1
  {
    if ops == [] then [] else Effect(EffectAll(ops[..|ops| - 1]), ops[|ops| - 1])
  }

  predicate AllLegal(ops: seq<Op>)
    decreases |ops|, 0
  {
    ops != [] ==> AllLegal(ops[..|ops| - 1]) && Legal(EffectAll(ops[..|ops| - 1]), ops[|ops| - 1])
  }

  lemma {:induction false} PrefixLegal(ops: seq<Op>, n: nat)
    requires AllLegal(ops) && n <= |ops|
    ensures AllLegal(ops[..n])
    decreases |ops|
  {
    if n < |ops| {
      PrefixLegal(ops[..|ops| - 1], n);
      assert ops[..|ops| - 1][..n] == ops[..n];
    } else {
      assert ops[..n] == ops;
    }
  }

  lemma OneMore(ops: seq<Op>, n: nat)
    requires AllLegal(ops) && n < |ops|
    ensures AllLegal(ops[..n]) && Legal(EffectAll(ops[..n]), ops[n])
    ensures AllLegal(ops[..n + 1]) && EffectAll(ops[..n + 1]) == Effect(EffectAll(ops[..n]), ops[n])
  {
    PrefixLegal(ops, n + 1);
    assert ops[..n + 1][..n] == ops[..n];
  }

  /** All that the operations create is new, so they may also change it. */
  ghost predicate IsMine(heap: Heap, strings: seq<String>, mine: set<object>)
    reads heap
  {
    && heap in mine
    && (forall k :: 0 <= k < |strings| ==> strings[k] in mine && strings[k].buf in mine)
    && (forall a :: a in heap.live ==> a in mine)
  }

  /** The operations that make a new string. */
  method PerformNew(heap: Heap, strings: seq<String>, ghost texts: seq<Text>, ghost owners: seq<Blocks>, op: Op, ghost mine: set<object>)
    returns (strings': seq<String>, ghost owners': seq<Blocks>, ghost mine': set<object>)
    requires op.Construct? || op.CopyConstruct? || op.MoveConstruct?
    requires InOrder(heap, strings, texts, owners) && Legal(texts, op) && IsMine(heap, strings, mine)
    modifies mine
    ensures InOrder(heap, strings', Effect(texts, op), owners')
    ensures IsMine(heap, strings', mine') && mine <= mine' && fresh(mine' - mine)
  {
    match op {
      case Construct(text) => strings', owners' := DoConstruct(heap, strings, texts, owners, text);
      case CopyConstruct(j) => strings', owners' := DoCopyConstruct(heap, strings, texts, owners, j);
      case MoveConstruct(j) => strings', owners' := DoMoveConstruct(heap, strings, texts, owners, j);
    }
    mine' := mine + heap.live + NewObjects(strings, strings');
    StillMine(heap, strings, strings', mine, mine');
  }

  lemma StillMine(heap: Heap, strings: seq<String>, strings': seq<String>, mine: set<object>, mine': set<object>)
    requires Extends(strings, strings') && heap in mine && mine <= mine'
    requires forall k :: 0 <= k < |strings| ==> strings[k] in mine && strings[k].buf in mine
    requires heap.live + NewObjects(strings, strings') <= mine'
    ensures IsMine(heap, strings', mine')
  {
    forall k | 0 <= k < |strings'| ensures strings'[k] in mine' && strings'[k].buf in mine' {
      if k < |strings| { assert strings'[k] == strings'[..|strings|][k]; }
    }
  }

  /** The operations that change or destroy strings. */
  method PerformChange(heap: Heap, strings: seq<String>, ghost texts: seq<Text>, ghost owners: seq<Blocks>, op: Op, ghost mine: set<object>)
    returns (strings': seq<String>, ghost owners': seq<Blocks>, ghost mine': set<object>)
    requires op.Assign? || op.MoveAssign? || op.Append? || op.Destroy?
    requires InOrder(heap, strings, texts, owners) && Legal(texts, op) && IsMine(heap, strings, mine)
    modifies mine
    ensures InOrder(heap, strings', Effect(texts, op), owners')
    ensures IsMine(heap, strings', mine') && mine <= mine' && fresh(mine' - mine)
  {
    strings' := strings;
    match op {
      case Assign(i, j) => owners' := DoAssign(heap, strings, texts, owners, i, j);
      case MoveAssign(i, j) => owners' := DoMoveAssign(heap, strings, texts, owners, i, j);
      case Append(i, j) =>
        assert strings[i].Is(texts[i], owners[i]) && owners[i] <= heap.live;
        owners' := DoAppend(heap, strings, texts, owners, i, j);
      case Destroy(i) => strings', owners' := DoDestroy(heap, strings, texts, owners, i);
    }
    mine' := mine + heap.live;
  }

  /**
   * Running any legal sequence of operations leaves strings with the texts the operations
   * describe, and exactly their blocks on the heap; none if every string was destroyed.
   */
  method Execute(ops: seq<Op>) returns (heap: Heap, strings: seq<String>, ghost owners: seq<Blocks>)
    requires AllLegal(ops)
    ensures InOrder(heap, strings, EffectAll(ops), owners)
    ensures EffectAll(ops) == [] ==> heap.live == {}
  {
    heap := new Heap();
    strings, owners := [], [];
    ghost var mine: set<object> := {heap};
    ghost var texts: seq<Text> := [];
    for n := 0 to |ops|
      invariant AllLegal(ops[..n]) && texts == EffectAll(ops[..n])
      invariant InOrder(heap, strings, texts, owners)
      invariant IsMine(heap, strings, mine) && fresh(mine)
    {
      OneMore(ops, n);
      if ops[n].Construct? || ops[n].CopyConstruct? || ops[n].MoveConstruct? {
        strings, owners, mine := PerformNew(heap, strings, texts, owners, ops[n], mine);
      } else {
        strings, owners, mine := PerformChange(heap, strings, texts, owners, ops[n], mine);
      }
      texts := Effect(texts, ops[n]);
    }
    assert ops[..|ops|] == ops;
  }

  /** What the characters of the strings are in the end, read through their pointers. */
  method Outcome(ops: seq<Op>) returns (texts: seq<Text>)
    requires AllLegal(ops)
    ensures texts == EffectAll(ops)
  {
    var heap, strings, owners := Execute(ops);
    texts := [];
    ghost var all := EffectAll(ops);
    for i := 0 to |strings|
      invariant texts == all[..i]
      invariant forall k :: 0 <= k < |strings| ==> strings[k].Is(all[k], owners[k])
    {
      var text := Shown(strings[i], all[i], owners[i]);
      texts := texts + [text];
    }
  }

  method Shown(s: String, ghost text: Text, ghost block: Blocks) returns (shown: Text)
    requires s.Is(text, block)
    ensures shown == text
  {
    var p := s.CStr();
    var n := s.Length();
    shown := p[..n];
  }
}
