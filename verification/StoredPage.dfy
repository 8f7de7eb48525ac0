/** Pages, the keys they are stored under, and the index of stored pages (src/stored_page.c). */
module StoredPages {
  import opened Kutils

  newtype Byte = x: int | 0 <= x < 256

  type Page = p: seq<Byte> | |p| == PAGE_SIZE witness seq(PAGE_SIZE, _ => 0)

  function ZeroPage(): Page {
    seq(PAGE_SIZE, _ => 0)
  }

  datatype Key = Key(pid: int, start: nat)

  /** The list without its first entry equal to `k`. */
  function Without(list: seq<Key>, k: Key): seq<Key> {
    if list == [] then []
    else if list[0] == k then list[1..]
    else [list[0]] + Without(list[1..], k)
  }

  ghost predicate NoDuplicates(list: seq<Key>) {
    forall i, j :: 0 <= i < j < |list| ==> list[i] != list[j]
  }

  lemma {:induction false} WithoutIsRemoval(list: seq<Key>, k: Key)
    requires NoDuplicates(list)
    ensures NoDuplicates(Without(list, k))
    ensures forall x :: x in Without(list, k) <==> x in list && x != k
  {
    if list != [] {
      assert list == [list[0]] + list[1..];
      assert forall i :: 0 <= i < |list[1..]| ==> list[1..][i] == list[i + 1];
      if list[0] != k {
        WithoutIsRemoval(list[1..], k);
        var w := Without(list[1..], k);
        assert forall i :: 0 <= i < |w| ==> w[i] in list[1..];
      }
    }
  }

  lemma AppendNew(list: seq<Key>, k: Key)
    requires NoDuplicates(list) && k !in list
    ensures NoDuplicates(list + [k])
  {
    assert forall i :: 0 <= i < |list| ==> list[i] in list;
  }

  class StoredPageList {
    var list: seq<Key>

    constructor ()
      ensures list == []
    {
      list := [];
    }

    method AddStoredPage(pid: int, start: nat)
      modifies this
      ensures list == old(list) + [Key(pid, start)]
    {
      list := list + [Key(pid, start)];
    }

    method IsStoredPage(pid: int, start: nat) returns (found: bool)
      ensures found <==> Key(pid, start) in list
    {
      var i := 0;
      while i < |list|
        invariant i <= |list|
        invariant Key(pid, start) !in list[..i]
      {
        if list[i].pid == pid && list[i].start == start {
          return true;
        }
        i := i + 1;
      }
      return false;
    }

    method RemoveStoredPage(pid: int, start: nat)
      modifies this
      ensures list == Without(old(list), Key(pid, start))
    {
      var i := 0;
      assert list[0..] == list;
      while i < |list|
        invariant i <= |list| && list == old(list)
        invariant Without(list, Key(pid, start)) == list[..i] + Without(list[i..], Key(pid, start))
      {
        assert list[i..] == [list[i]] + list[i + 1..];
        if list[i].pid == pid && list[i].start == start {
          list := list[..i] + list[i + 1..];
          break;
        }
        assert list[..i + 1] == list[..i] + [list[i]];
        i := i + 1;
      }
      if i == |old(list)| {
        assert old(list)[i..] == [];
      }
    }
  }
}
