/** The in-kernel storage back end (src/storage.c): a list of nodes searched by pid and address. */
module KernelStorages {
  import opened StoredPages
  import opened Paging

  const UINT: nat := 0x1_0000_0000

  /** `buffer` is NULL only in a node just created. */
  datatype Node = Node(pid: int, address: nat, buffer: Option<Page>)

  /** The search of `get_kernel_buffer`, whose address parameter is an unsigned int. */
  function FindNode(list: seq<Node>, pid: int, address: nat): (i: nat)
    ensures i <= |list|
    ensures i < |list| ==> list[i].pid == pid && list[i].address == address % UINT
    ensures forall j :: 0 <= j < i ==> !(list[j].pid == pid && list[j].address == address % UINT)
  {
    if list == [] then 0
    else if list[0].address == address % UINT && list[0].pid == pid then 0
    else 1 + FindNode(list[1..], pid, address)
  }

  function Saved(list: seq<Node>, k: Key, page: Page): seq<Node> {
    var i := FindNode(list, k.pid, k.start);
    if i < |list| then list[i := Node(k.pid, k.start, Some(page))] else list + [Node(k.pid, k.start, Some(page))]
  }

  function Loaded(list: seq<Node>, k: Key): Page {
    var i := FindNode(list, k.pid, k.start);
    if i < |list| && list[i].buffer.Some? then list[i].buffer.value else ZeroPage()
  }

  function Removed(list: seq<Node>, k: Key): seq<Node> {
    if list == [] then []
    else if list[0].address == k.start && list[0].pid == k.pid then Removed(list[1..], k)
    else [list[0]] + Removed(list[1..], k)
  }

  // ----- The list is a finite map -----

  /** All nodes have their page, and those a search can find are found under one pid and address only. A save at
      an address of 2^32 or more makes nodes that no search finds, any number of them. */
  ghost predicate NodesOk(list: seq<Node>) {
    && (forall i :: 0 <= i < |list| ==> list[i].buffer.Some?)
    && (forall i, j :: 0 <= i < j < |list| && list[i].address < UINT ==>
         list[i].pid != list[j].pid || list[i].address != list[j].address)
  }

  ghost predicate HasNode(list: seq<Node>, k: Key, page: Page) {
    Node(k.pid, k.start, Some(page)) in list
  }

  /** What the list holds, as far as loads can tell. */
  ghost predicate IsMap(list: seq<Node>, m: map<Key, Page>) {
    && NodesOk(list)
    && (forall k: Key, page :: k.start < UINT ==> (HasNode(list, k, page) <==> k in m && m[k] == page))
    && (forall k :: k in m ==> k.start < UINT)
  }

  /** The key that a search for `k` looks for. */
  function Narrow(k: Key): Key {
    Key(k.pid, k.start % UINT)
  }

  /** What a save makes of the map: below 2^32 it is an update; above, it deletes the page at the truncated
      address, whose node it takes over. */
  function AfterSave(m: map<Key, Page>, k: Key, page: Page): map<Key, Page> {
    if k.start < UINT then m[k := page] else m - {Narrow(k)}
  }

  lemma SavedOk(list: seq<Node>, k: Key, page: Page)
    requires NodesOk(list)
    ensures NodesOk(Saved(list, k, page))
  {
    var i := FindNode(list, k.pid, k.start);
    var s := Saved(list, k, page);
    assert forall j :: 0 <= j < |list| && j != i ==> s[j] == list[j];
    assert s[i] == Node(k.pid, k.start, Some(page));
    forall j | 0 <= j < |list| && j != i && k.start < UINT
      ensures s[j].pid != k.pid || s[j].address != k.start
    {
    }
  }

  /** Which nodes that can be found the list has after a save. */
  lemma SavedNodes(list: seq<Node>, k: Key, page: Page, x: Key, p: Page)
    requires NodesOk(list) && x.start < UINT
    ensures HasNode(Saved(list, k, page), x, p) <==>
            if x == k then p == page else x != Narrow(k) && HasNode(list, x, p)
  {
    var i := FindNode(list, k.pid, k.start);
    var s := Saved(list, k, page);
    assert s[i] == Node(k.pid, k.start, Some(page));
    assert forall j :: 0 <= j < |list| && j != i ==> s[j] == list[j];
    if HasNode(list, x, p) && x != Narrow(k) {
      var j :| 0 <= j < |list| && list[j] == Node(x.pid, x.start, Some(p));
      assert s[j] == list[j];
    }
    if HasNode(s, x, p) && x != k {
      var j :| 0 <= j < |s| && s[j] == Node(x.pid, x.start, Some(p));
      assert j != i && list[j] == s[j];
    }
  }

  /** A save, at any address, is that operation on the map. */
  lemma SavedIsUpdate(list: seq<Node>, m: map<Key, Page>, k: Key, page: Page)
    requires IsMap(list, m)
    ensures IsMap(Saved(list, k, page), AfterSave(m, k, page))
  {
    SavedOk(list, k, page);
    var n := AfterSave(m, k, page);
    forall x: Key, p: Page | x.start < UINT
      ensures HasNode(Saved(list, k, page), x, p) <==> x in n && n[x] == p
    {
      SavedNodes(list, k, page, x, p);
      assert HasNode(list, x, p) <==> x in m && m[x] == p;
    }
  }

  /** A load, at any address, is a lookup at the truncated address. */
  lemma LoadedIsLookup(list: seq<Node>, m: map<Key, Page>, k: Key)
    requires IsMap(list, m)
    ensures Loaded(list, k) == if Narrow(k) in m then m[Narrow(k)] else ZeroPage()
  {
    var i := FindNode(list, k.pid, k.start);
    if i < |list| {
      assert list[i] == Node(k.pid, k.start % UINT, Some(list[i].buffer.value));
      assert HasNode(list, Narrow(k), list[i].buffer.value);
    } else if Narrow(k) in m {
      assert HasNode(list, Narrow(k), m[Narrow(k)]);
    }
  }

  lemma NodesTail(list: seq<Node>)
    requires NodesOk(list) && |list| > 0
    ensures NodesOk(list[1..])
    ensures forall n :: n in list[1..] && list[0].address < UINT ==>
              n.pid != list[0].pid || n.address != list[0].address
  {
  }

  lemma NodesCons(n: Node, list: seq<Node>)
    requires NodesOk(list) && n.buffer.Some?
    requires forall x :: x in list && n.address < UINT ==> x.pid != n.pid || x.address != n.address
    ensures NodesOk([n] + list)
  {
    var r := [n] + list;
    assert forall i :: 0 < i < |r| ==> r[i] == list[i - 1] && list[i - 1] in list;
  }

  lemma {:induction false} RemovedNodes(list: seq<Node>, k: Key)
    requires NodesOk(list)
    ensures NodesOk(Removed(list, k))
    ensures forall n :: n in Removed(list, k) <==> n in list && !(n.pid == k.pid && n.address == k.start)
  {
    if list != [] {
      assert list == [list[0]] + list[1..];
      NodesTail(list);
      RemovedNodes(list[1..], k);
      NodesCons(list[0], Removed(list[1..], k));
    }
  }

  /** A removal, at any address, takes the key out of the map; it compares whole addresses. */
  lemma RemovedIsRemoval(list: seq<Node>, m: map<Key, Page>, k: Key)
    requires IsMap(list, m)
    ensures IsMap(Removed(list, k), m - {k})
  {
    RemovedNodes(list, k);
    forall x: Key, p: Page | x.start < UINT
      ensures HasNode(Removed(list, k), x, p) <==> x in m - {k} && (m - {k})[x] == p
    {
      assert HasNode(list, x, p) <==> x in m && m[x] == p;
    }
  }

  /** What a page saved is worth: it is loaded again exactly when its address fits in an unsigned int (or when
      it is all zeros, which is what a missing page reads as). */
  lemma LoadAfterSaveIff(list: seq<Node>, m: map<Key, Page>, k: Key, page: Page)
    requires IsMap(list, m)
    ensures Loaded(Saved(list, k, page), k) == page <==> k.start < UINT || page == ZeroPage()
  {
    SavedIsUpdate(list, m, k, page);
    LoadedIsLookup(Saved(list, k, page), AfterSave(m, k, page), k);
  }

  /** What any load returns after a save, in terms of what it returned before: a load looks for the lower 32 bits of its
      address, a save below 2^32 answers all loads of its own, and a save above leaves them without a page. */
  lemma LoadAfterSave(list: seq<Node>, m: map<Key, Page>, k: Key, page: Page, x: Key)
    requires IsMap(list, m)
    ensures Loaded(Saved(list, k, page), x) ==
            if x.pid != k.pid || x.start % 0x1_0000_0000 != k.start % 0x1_0000_0000 then Loaded(list, x)
            else if k.start < 0x1_0000_0000 then page else ZeroPage()
  {
    LoadedIsLookup(list, m, x);
    SavedIsUpdate(list, m, k, page);
    LoadedIsLookup(Saved(list, k, page), AfterSave(m, k, page), x);
    var n := Narrow(x);
    assert k.start < UINT ==> (n == k <==> x.pid == k.pid && x.start % UINT == k.start % UINT);
    assert n == Narrow(k) <==> x.pid == k.pid && x.start % UINT == k.start % UINT;
  }

  /** The same after a removal, which compares whole addresses. */
  lemma LoadAfterRemoval(list: seq<Node>, m: map<Key, Page>, k: Key, x: Key)
    requires IsMap(list, m)
    ensures Loaded(Removed(list, k), x) ==
            if x.pid == k.pid && x.start % 0x1_0000_0000 == k.start then ZeroPage() else Loaded(list, x)
  {
    LoadedIsLookup(list, m, x);
    RemovedIsRemoval(list, m, k);
    LoadedIsLookup(Removed(list, k), m - {k}, x);
  }

  /** A save at a wider address takes over the node of the truncated address, so neither is found again: a page
      saved before at the truncated address, which fits, is lost. */
  lemma TruncatedMisses(list: seq<Node>, m: map<Key, Page>, k: Key, page: Page)
    requires IsMap(list, m) && k.start >= UINT
    ensures Loaded(Saved(list, k, page), k) == ZeroPage()
    ensures Loaded(Saved(list, k, page), Narrow(k)) == ZeroPage()
  {
    SavedIsUpdate(list, m, k, page);
    LoadedIsLookup(Saved(list, k, page), AfterSave(m, k, page), k);
    LoadedIsLookup(Saved(list, k, page), AfterSave(m, k, page), Narrow(k));
  }

  /** A page is loaded at every wider address that truncates to its own. */
  lemma AliasLoads(list: seq<Node>, m: map<Key, Page>, k: Key, page: Page, wide: Key)
    requires IsMap(list, m) && k.start < UINT && Narrow(wide) == k
    ensures Loaded(Saved(list, k, page), wide) == page
  {
    SavedIsUpdate(list, m, k, page);
    LoadedIsLookup(Saved(list, k, page), AfterSave(m, k, page), wide);
  }

  // ----- The list edited in place -----

  class KernelStorage {
    var list: seq<Node>

    /** `kernel_init`. */
    constructor ()
      ensures list == []
    {
      list := [];
    }

    /** `get_kernel_buffer`: the position of the node, created at the end if asked for. A new node's address is
        left zero. */
    method GetKernelBuffer(pid: int, address: nat, create: bool) returns (found: bool, i: nat)
      modifies this
      ensures i == FindNode(old(list), pid, address)
      ensures found <==> i < |old(list)| || create
      ensures list == if i == |old(list)| && create then old(list) + [Node(pid, 0, None)] else old(list)
    {
      i := 0;
      var target := address % UINT;
      while i < |list|
        invariant i <= FindNode(list, pid, address) && list == old(list)
      {
        if list[i].address == target && list[i].pid == pid {
          return true, i;
        }
        i := i + 1;
      }
      if create {
        list := list + [Node(pid, 0, None)];
      }
      found := create;
    }

    /** `kernel_save`. */
    method KernelSave(pid: int, address: nat, buffer: Page)
      modifies this
      ensures list == Saved(old(list), Key(pid, address), buffer)
    {
      var _, i := GetKernelBuffer(pid, address, true);
      list := list[i := list[i].(address := address)];
      list := list[i := list[i].(buffer := Some(buffer))];
    }

    /** `kernel_load`. */
    method KernelLoad(pid: int, address: nat) returns (buffer: Page)
      modifies this
      ensures list == old(list) && buffer == Loaded(list, Key(pid, address))
    {
      var found, i := GetKernelBuffer(pid, address, false);
      if found && list[i].buffer.Some? {
        buffer := list[i].buffer.value;
      } else {
        buffer := ZeroPage();
      }
    }

    /** `kernel_remove`: every matching node goes. */
    method KernelRemove(pid: int, address: nat)
      modifies this
      ensures list == Removed(old(list), Key(pid, address))
    {
      var i := 0;
      ghost var k := Key(pid, address);
      while i < |list|
        invariant i <= |list|
        invariant list[..i] + Removed(list[i..], k) == Removed(old(list), k)
        decreases |list| - i
      {
        assert list[i..][1..] == list[i + 1..];
        if list[i].address == address && list[i].pid == pid {
          ghost var before := list;
          list := list[..i] + list[i + 1..];
          assert list[..i] == before[..i] && list[i..] == before[i + 1..];
        } else {
          assert list[..i + 1] == list[..i] + [list[i]];
          i := i + 1;
        }
      }
      assert list[..i] == list;
    }
  }
}
