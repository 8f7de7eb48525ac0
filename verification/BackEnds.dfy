/** The two storage back ends side by side: the kernel's list and the server behind the wire protocol are
    the same finite map of pages. */
module BackEnds {
  import opened Kutils
  import opened StoredPages
  import opened PageRemoval
  import opened Paging
  import opened Protocol
  import opened Server
  import opened KernelStorages

  /** The operations of `struct storage_ops` (src/storage.h). */
  datatype StorageOp = Save(key: Key, page: Page) | Load(key: Key) | Remove(key: Key)

  /** Pids are ints; the address fits the kernel back end's unsigned int. */
  predicate InRange(op: StorageOp) {
    -0x8000_0000 <= op.key.pid < 0x8000_0000 && op.key.start < UINT
  }

  predicate AllInRange(ops: seq<StorageOp>) {
    forall op :: op in ops ==> InRange(op)
  }

  function CommandOf(op: StorageOp): (c: Command)
    ensures InRange(op) ==> Sendable(c)
  {
    match op
    case Save(k, page) => Put(k.pid, k.start, page)
    case Load(k) => Get(k.pid, k.start)
    case Remove(k) => Rm(k.pid, k.start)
  }

  function Commands(ops: seq<StorageOp>): (cs: seq<Command>)
    ensures |cs| == |ops|
    ensures AllInRange(ops) ==> AllSendable(cs)
  {
    if ops == [] then [] else
      var rest := Commands(ops[1..]);
      assert AllInRange(ops) ==> InRange(ops[0]) && AllInRange(ops[1..]);
      [CommandOf(ops[0])] + rest
  }

  function KernelAfter(list: seq<Node>, op: StorageOp): seq<Node> {
    match op
    case Save(k, page) => Saved(list, k, page)
    case Load(_) => list
    case Remove(k) => Removed(list, k)
  }

  function KernelFinal(list: seq<Node>, ops: seq<StorageOp>): seq<Node>
    decreases |ops|
  {
    if ops == [] then list else KernelFinal(KernelAfter(list, ops[0]), ops[1..])
  }

  function KernelLoads(list: seq<Node>, ops: seq<StorageOp>): seq<Page>
    decreases |ops|
  {
    if ops == [] then []
    else (if ops[0].Load? then [Loaded(list, ops[0].key)] else []) + KernelLoads(KernelAfter(list, ops[0]), ops[1..])
  }

  // ----- The kernel's list at all addresses -----

  /** An operation on the pages that loads can find. */
  function NarrowApply(m: map<Key, Page>, op: StorageOp): map<Key, Page> {
    match op
    case Save(k, page) => AfterSave(m, k, page)
    case Load(_) => m
    case Remove(k) => m - {k}
  }

  function NarrowFinal(m: map<Key, Page>, ops: seq<StorageOp>): map<Key, Page>
    decreases |ops|
  {
    if ops == [] then m else NarrowFinal(NarrowApply(m, ops[0]), ops[1..])
  }

  /** A load of the pages that can be found. */
  function NarrowReply(m: map<Key, Page>, op: StorageOp): seq<Page> {
    if op.Load? then [if Narrow(op.key) in m then m[Narrow(op.key)] else ZeroPage()] else []
  }

  function NarrowLoads(m: map<Key, Page>, ops: seq<StorageOp>): seq<Page>
    decreases |ops|
  {
    if ops == [] then [] else NarrowReply(m, ops[0]) + NarrowLoads(NarrowApply(m, ops[0]), ops[1..])
  }

  lemma KernelStep(list: seq<Node>, m: map<Key, Page>, op: StorageOp)
    requires IsMap(list, m)
    ensures IsMap(KernelAfter(list, op), NarrowApply(m, op))
    ensures op.Load? ==> [Loaded(list, op.key)] == NarrowReply(m, op)
  {
    match op
    case Save(k, page) => SavedIsUpdate(list, m, k, page);
    case Load(k) => LoadedIsLookup(list, m, k);
    case Remove(k) => RemovedIsRemoval(list, m, k);
  }

  /** What the kernel's list is after any operations at any addresses, and what its loads return. */
  lemma {:induction false} KernelIsNarrowMap(list: seq<Node>, m: map<Key, Page>, ops: seq<StorageOp>)
    requires IsMap(list, m)
    ensures IsMap(KernelFinal(list, ops), NarrowFinal(m, ops))
    ensures KernelLoads(list, ops) == NarrowLoads(m, ops)
    decreases |ops|
  {
    if ops != [] {
      KernelStep(list, m, ops[0]);
      KernelIsNarrowMap(KernelAfter(list, ops[0]), NarrowApply(m, ops[0]), ops[1..]);
    }
  }

  /** So after any operations a page saved is loaded again exactly when its address fits or it is all zeros. A save
      at a wider address loses the page at the address it truncates to, and a load there returns that page. */
  lemma SavesThatLast(ops: seq<StorageOp>, k: Key, page: Page, wide: Key)
    requires wide.start >= UINT
    ensures Loaded(Saved(KernelFinal([], ops), k, page), k) == page <==> k.start < UINT || page == ZeroPage()
    ensures Loaded(Saved(KernelFinal([], ops), wide, page), Narrow(wide)) == ZeroPage()
    ensures k == Narrow(wide) ==> Loaded(Saved(KernelFinal([], ops), k, page), wide) == page
  {
    KernelIsNarrowMap([], map[], ops);
    LoadAfterSaveIff(KernelFinal([], ops), NarrowFinal(map[], ops), k, page);
    TruncatedMisses(KernelFinal([], ops), NarrowFinal(map[], ops), wide, page);
    if k == Narrow(wide) {
      AliasLoads(KernelFinal([], ops), NarrowFinal(map[], ops), k, page, wide);
    }
  }

  // ----- Below 2^32 -----

  lemma NarrowIsApply(m: map<Key, Page>, op: StorageOp)
    requires InRange(op)
    ensures NarrowApply(m, op) == Apply(m, CommandOf(op)) && NarrowReply(m, op) == Reply(m, CommandOf(op))
  {
  }

  lemma {:induction false} NarrowIsMap(m: map<Key, Page>, ops: seq<StorageOp>)
    requires AllInRange(ops)
    ensures NarrowFinal(m, ops) == ApplyAll(m, Commands(ops)) && NarrowLoads(m, ops) == RepliesTo(m, Commands(ops))
    decreases |ops|
  {
    if ops != [] {
      assert InRange(ops[0]) && AllInRange(ops[1..]);
      NarrowIsApply(m, ops[0]);
      NarrowIsMap(Apply(m, CommandOf(ops[0])), ops[1..]);
      assert Commands(ops)[0] == CommandOf(ops[0]) && Commands(ops)[1..] == Commands(ops[1..]);
    }
  }

  /** The kernel's list behaves as the map over any sequence of operations at addresses below 2^32. */
  lemma KernelIsMap(list: seq<Node>, m: map<Key, Page>, ops: seq<StorageOp>)
    requires IsMap(list, m) && AllInRange(ops)
    ensures IsMap(KernelFinal(list, ops), ApplyAll(m, Commands(ops)))
    ensures KernelLoads(list, ops) == RepliesTo(m, Commands(ops))
  {
    KernelIsNarrowMap(list, m, ops);
    NarrowIsMap(m, ops);
  }

  /** The back ends are equivalent: over any sequence of saves, loads and removals the server, reading the
      bytes the client writes, answers what the kernel back end answers, and both end with the same pages. */
  lemma BackEndsAgree(ops: seq<StorageOp>) returns (m: map<Key, Page>)
    requires AllInRange(ops)
    ensures var served := Serve(map[], [], EncodeAll(Commands(ops)), Closed);
            && served.ending == Quit
            && served.replies == KernelLoads([], ops)
            && SamePages(served.pages, m)
    ensures IsMap(KernelFinal([], ops), m)
  {
    m := ApplyAll(map[], Commands(ops));
    KernelIsMap([], map[], ops);
    var after := ServeDecodes(map[], map[], [], Commands(ops), [], Closed);
    assert EncodeAll(Commands(ops)) + [] == EncodeAll(Commands(ops));
  }

  /** At a wider address they differ: of a page saved there the server returns it and the kernel's list zeros. */
  lemma BackEndsDiffer(k: Key, page: Page)
    requires -0x8000_0000 <= k.pid < 0x8000_0000 && UINT <= k.start < WORD
    ensures var ops := [Save(k, page), Load(k)];
            && AllSendable(Commands(ops))
            && Serve(map[], [], EncodeAll(Commands(ops)), Closed).replies == [page]
            && KernelLoads([], ops) == [ZeroPage()]
  {
    var ops := [Save(k, page), Load(k)];
    var list := Saved([], k, page);
    assert ops[1..] == [Load(k)] && [Load(k)][1..] == [];
    var cs := [Put(k.pid, k.start, page), Get(k.pid, k.start)];
    assert Commands([Load(k)]) == [Get(k.pid, k.start)];
    assert Commands(ops) == cs;
    LoadAfterSaveIff([], map[], k, page);
    TruncatedMisses([], map[], k, page);
    assert KernelLoads(list, [Load(k)]) == [Loaded(list, k)];
    var after := ServeDecodes(map[], map[], [], cs, [], Closed);
    assert EncodeAll(cs) + [] == EncodeAll(cs);
    var m := Apply(map[], cs[0]);
    assert cs[1..] == [cs[1]] && [cs[1]][1..] == [];
    assert RepliesTo(m, [cs[1]]) == [page];
    assert RepliesTo(map[], cs) == [page];
  }

  /** What the paging code takes for storage is this map: its saves and removals are the map's, and a page it
      does not load because the index has no entry for it would have been read as zeros. */
  lemma PagingUsesTheMap(b: Backing, k: Key, page: Page)
    requires BackingOk(b)
    ensures Paging.Save(b, k, page).store == Apply(b.store, CommandOf(Save(k, page)))
    ensures Drop(b, k).store == Apply(b.store, CommandOf(Remove(k)))
    ensures [Stored(b, k)] == Reply(b.store, CommandOf(Load(k)))
  {
  }
}
