/** The device registry: a linked list of entries, and the list of pairs it stands for. */
module Registry {
  const INVALID_SOCKET := -1
  const MAX_DEVICE_ID := 255

  /** What strncmp and strncpy see of a device id. */
  function Key(id: string): string {
    if |id| <= MAX_DEVICE_ID then id else id[..MAX_DEVICE_ID]
  }

  datatype Pair = Pair(id: string, fd: int)

  // ---- What the list stands for -------------------------------------------------------------------

  function Get(es: seq<Pair>, id: string): int {
    if es == [] then INVALID_SOCKET else if es[0].id == id then es[0].fd else Get(es[1..], id)
  }

  predicate HasId(es: seq<Pair>, id: string) {
    es != [] && (es[0].id == id || HasId(es[1..], id))
  }

  /** The first entry of the id gets the socket. */
  function Updated(es: seq<Pair>, id: string, fd: int): seq<Pair> {
    if es == [] then [] else if es[0].id == id then [Pair(id, fd)] + es[1..] else [es[0]] + Updated(es[1..], id, fd)
  }

  function Set(es: seq<Pair>, id: string, fd: int): seq<Pair> {
    if id == "" || fd == INVALID_SOCKET then es
    else if HasId(es, Key(id)) then Updated(es, Key(id), fd)
    else [Pair(Key(id), fd)] + es
  }

  /** The first entry with the socket goes. */
  function WithoutFirst(es: seq<Pair>, fd: int): seq<Pair> {
    if es == [] then [] else if es[0].fd == fd then es[1..] else [es[0]] + WithoutFirst(es[1..], fd)
  }

  function Remove(es: seq<Pair>, fd: int): seq<Pair> {
    if fd == INVALID_SOCKET then es else WithoutFirst(es, fd)
  }

  lemma {:induction false} FoundAt(es: seq<Pair>, id: string, fd: int, i: nat)
    requires i < |es| && es[i].id == id && forall j :: 0 <= j < i ==> es[j].id != id
    ensures HasId(es, id) && Get(es, id) == es[i].fd && Updated(es, id, fd) == es[i := Pair(id, fd)]
    decreases i
  {
    if i > 0 {
      assert es[0].id != id;
      FoundAt(es[1..], id, fd, i - 1);
    }
  }

  lemma {:induction false} NotFound(es: seq<Pair>, id: string)
    requires forall j :: 0 <= j < |es| ==> es[j].id != id
    ensures !HasId(es, id) && Get(es, id) == INVALID_SOCKET
  {
    if es != [] {
      NotFound(es[1..], id);
    }
  }

  lemma {:induction false} FirstSocketAt(es: seq<Pair>, fd: int, i: nat)
    requires i < |es| && es[i].fd == fd && forall j :: 0 <= j < i ==> es[j].fd != fd
    ensures WithoutFirst(es, fd) == es[..i] + es[i + 1..]
    decreases i
  {
    if i > 0 {
      assert es[0].fd != fd;
      FirstSocketAt(es[1..], fd, i - 1);
      assert es[..i] + es[i + 1..] == [es[0]] + (es[1..][..i - 1] + es[1..][i..]);
    }
  }

  lemma {:induction false} NoSocket(es: seq<Pair>, fd: int)
    requires forall j :: 0 <= j < |es| ==> es[j].fd != fd
    ensures WithoutFirst(es, fd) == es
  {
    if es != [] {
      NoSocket(es[1..], fd);
    }
  }

  // ---- The list on the heap --------------------------------------------------------------------------

  class Entry {
    var deviceId: string
    var fd: int
    var next: Entry?

    constructor (deviceId: string, fd: int, next: Entry?)
      ensures this.deviceId == deviceId && this.fd == fd && this.next == next
    {
      this.deviceId, this.fd, this.next := deviceId, fd, next;
    }
  }

  class DeviceRegistry {
    var devices: Entry?
    ghost var spine: seq<Entry>
    ghost var contents: seq<Pair>
    ghost var repr: set<Entry>

    ghost predicate Valid()
      reads this, repr
    {
      && (forall i :: 0 <= i < |spine| ==> spine[i] in repr)
      && Linked(devices, spine)
      && Shown(spine, contents)
    }

    constructor ()
      ensures Valid() && contents == [] && repr == {}
    {
      devices, spine, contents, repr := null, [], [], {};
    }

    /** The first entry of the id and the entry before it. */
    method FindId(id: string) returns (cur: Entry?, ghost i: nat)
      requires Valid()
      ensures i <= |spine| && cur == At(spine, i)
      ensures forall j :: 0 <= j < i ==> contents[j].id != Key(id)
      ensures i < |spine| ==> contents[i].id == Key(id)
    {
      cur, i := devices, 0;
      while cur != null
        invariant i <= |spine| && cur == At(spine, i)
        invariant forall j :: 0 <= j < i ==> contents[j].id != Key(id)
        decreases |spine| - i
      {
        assert contents[i].id == cur.deviceId;
        if Key(cur.deviceId) == Key(id) {
          return;
        }
        cur, i := cur.next, i + 1;
      }
    }

    method RegistrySet(id: string, fd: int)
      requires Valid()
      modifies this, repr
      ensures Valid()
      ensures fresh(repr - old(repr))
      ensures contents == Set(old(contents), id, fd)
    {
      if id == "" || fd == INVALID_SOCKET { return; }
      ghost var i;
      var cur;
      cur, i := FindId(id);
      if cur != null {
        FoundAt(contents, Key(id), fd, i);
        Refill(cur, i, fd);
      } else {
        NotFound(contents, Key(id));
        PushFront(Key(id), fd);
      }
    }

    method Refill(cur: Entry, ghost i: nat, fd: int)
      requires Valid() && i < |spine| && cur == spine[i]
      modifies this`contents, repr
      ensures Valid()
      ensures contents == old(contents)[i := Pair(old(contents)[i].id, fd)]
    {
      cur.fd := fd;
      contents := contents[i := Pair(contents[i].id, fd)];
    }

    method PushFront(id: string, fd: int)
      requires Valid() && |id| <= MAX_DEVICE_ID
      modifies this
      ensures Valid() && fresh(repr - old(repr))
      ensures contents == [Pair(id, fd)] + old(contents)
    {
      var e := new Entry(id, fd, devices);
      LinkedFirst(e, spine);
      ShownFirst(e, spine, contents);
      devices := e;
      spine, repr := [e] + spine, repr + {e};
      contents := [Pair(id, fd)] + contents;
    }

    method RegistryRemoveFd(fd: int)
      requires Valid()
      modifies this, repr
      ensures Valid() && repr == old(repr)
      ensures contents == Remove(old(contents), fd)
    {
      if fd == INVALID_SOCKET { return; }
      var prev: Entry?, cur := null, devices;
      ghost var i := 0;
      while cur != null && cur.fd != fd
        invariant i <= |spine| && cur == At(spine, i)
        invariant prev == if i > 0 then spine[i - 1] else null
        invariant forall j :: 0 <= j < i ==> contents[j].fd != fd
        decreases |spine| - i
      {
        prev, cur, i := cur, cur.next, i + 1;
      }
      if cur == null {
        NoSocket(contents, fd);
        return;
      }
      FirstSocketAt(contents, fd, i);
      Unlink(prev, cur, i);
    }

    method Unlink(prev: Entry?, cur: Entry, ghost i: nat)
      requires Valid() && i < |spine| && cur == spine[i] && prev == if i > 0 then spine[i - 1] else null
      modifies this, repr
      ensures Valid() && repr == old(repr) && contents == Without(old(contents), i)
    {
      WithoutIsPart(spine, i, repr);
      Bypass(prev, cur, i);
      LinkedWithout(devices, spine, i);
      ShownWithout(spine, contents, i);
      Show(Without(spine, i), Without(contents, i));
    }

    ghost method Show(newSpine: seq<Entry>, newContents: seq<Pair>)
      requires Linked(devices, newSpine) && Shown(newSpine, newContents)
      requires forall j :: 0 <= j < |newSpine| ==> newSpine[j] in repr
      modifies this`spine, this`contents
      ensures Valid() && contents == newContents
    {
      spine, contents := newSpine, newContents;
    }

    method Bypass(prev: Entry?, cur: Entry, ghost i: nat)
      requires Valid() && i < |spine| && cur == spine[i] && prev == if i > 0 then spine[i - 1] else null
      modifies this`devices, repr
      ensures Shown(spine, contents) && Bypassed(devices, spine, i)
    {
      if prev != null {
        prev.next := cur.next;
      } else {
        devices := cur.next;
      }
    }

    method RegistryGet(id: string) returns (fd: int)
      requires Valid()
      ensures fd == if id == "" then INVALID_SOCKET else Get(contents, Key(id))
    {
      if id == "" { return INVALID_SOCKET; }
      ghost var i;
      var cur;
      cur, i := FindId(id);
      if cur != null {
        FoundAt(contents, Key(id), 0, i);
        fd := cur.fd;
      } else {
        NotFound(contents, Key(id));
        fd := INVALID_SOCKET;
      }
    }
  }

  function At(spine: seq<Entry>, i: nat): Entry? {
    if i < |spine| then spine[i] else null
  }

  /** The entries from `devices` on are exactly `spine`, all distinct. */
  ghost predicate Linked(devices: Entry?, spine: seq<Entry>)
    reads spine
  {
    && devices == At(spine, 0)
    && (forall i, j :: 0 <= i < j < |spine| ==> spine[i] != spine[j])
    && (forall i :: 0 <= i < |spine| ==> spine[i].next == At(spine, i + 1))
  }

  /** The entries hold the pairs, ids cut to what an entry can store. */
  ghost predicate Shown(spine: seq<Entry>, contents: seq<Pair>)
    reads spine
  {
    && |contents| == |spine|
    && (forall i :: 0 <= i < |spine| ==> contents[i] == Pair(spine[i].deviceId, spine[i].fd))
    && (forall i :: 0 <= i < |contents| ==> |contents[i].id| <= MAX_DEVICE_ID)
  }

  ghost function Without<T>(s: seq<T>, i: nat): (r: seq<T>)
    requires i < |s|
    ensures |r| == |s| - 1 && forall k :: 0 <= k < |r| ==> r[k] == if k < i then s[k] else s[k + 1]
  {
    s[..i] + s[i + 1..]
  }

  lemma WithoutIsPart(spine: seq<Entry>, i: nat, repr: set<Entry>)
    requires i < |spine| && forall k :: 0 <= k < |spine| ==> spine[k] in repr
    ensures forall k :: 0 <= k < |spine| - 1 ==> Without(spine, i)[k] in repr
  {
  }

  /** The entries are linked as in `spine`, except that the i-th one is passed over. */
  ghost predicate Bypassed(devices: Entry?, spine: seq<Entry>, i: nat)
    reads spine
  {
    && i < |spine| && devices == At(spine, if i > 0 then 0 else 1)
    && (forall j, k :: 0 <= j < k < |spine| ==> spine[j] != spine[k])
    && (forall k :: 0 <= k < |spine| ==> spine[k].next == At(spine, if k == i - 1 then k + 2 else k + 1))
  }

  lemma LinkedWithout(devices: Entry?, spine: seq<Entry>, i: nat)
    requires Bypassed(devices, spine, i)
    ensures i < |spine| && Linked(devices, Without(spine, i))
  {
    var r := Without(spine, i);
    forall k | 0 <= k < |r| ensures r[k].next == At(r, k + 1) {
    }
  }

  lemma ShownWithout(spine: seq<Entry>, contents: seq<Pair>, i: nat)
    requires i < |spine| && Shown(spine, contents)
    ensures Shown(Without(spine, i), Without(contents, i))
  {
  }

  lemma LinkedFirst(e: Entry, spine: seq<Entry>)
    requires Linked(At(spine, 0), spine) && e !in spine && e.next == At(spine, 0)
    ensures Linked(e, [e] + spine)
  {
    var r := [e] + spine;
    assert forall k :: 0 < k < |r| ==> r[k] == spine[k - 1];
  }

  lemma ShownFirst(e: Entry, spine: seq<Entry>, contents: seq<Pair>)
    requires Shown(spine, contents) && |e.deviceId| <= MAX_DEVICE_ID
    ensures Shown([e] + spine, [Pair(e.deviceId, e.fd)] + contents)
  {
  }
}
