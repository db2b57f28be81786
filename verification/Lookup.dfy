/** alt_find_dev and alt_find_file: name lookup over the rings of registered devices and
    filesystems. Names are C strings; reading one past its terminator is not possible here. */
module Lookup {
  import opened LList

  const MAX_STRING_LENGTH := 1000

  /** alt_dev beside its list links. What its driver functions do is a parameter of the calls
      that run them (module FdSpec). */
  datatype DevInfo = DevInfo(name: string)

  type Dev = Node<DevInfo>

  predicate CString(s: string) {
    '\0' !in s
  }

  /** Character i of a C string, its terminator included. */
  function At(s: string, i: nat): char
    requires i <= |s|
  {
    if i < |s| then s[i] else '\0'
  }

  ghost predicate NamesDevice(name: string, dev: string) {
    name == dev && |name| <= MAX_STRING_LENGTH
  }

  /** A mount point without one trailing slash. */
  ghost function Stem(mount: string): string {
    if mount != [] && mount[|mount| - 1] == '/' then mount[..|mount| - 1] else mount
  }

  ghost predicate BelowMount(path: string, mount: string) {
    var stem := Stem(mount);
    && |stem| < MAX_STRING_LENGTH
    && stem <= path
    && (|path| == |stem| || path[|stem|] == '/')
  }

  /** Which paths a mount point owns: with or without one trailing slash in its name, the path
      equal to the name, and those that go on after it with a slash; no path that goes on with
      another character. */
  lemma OwnedExactly(path: string, name: string, slash: bool)
    requires slash || name == "" || name[|name| - 1] != '/'
    ensures BelowMount(path, if slash then name + "/" else name)
      <==> |name| < 1000 && (path == name || (|path| > |name| && path[..|name|] == name && path[|name|] == '/'))
  {
    assert slash ==> (name + "/")[..|name|] == name;
    assert |path| == |name| ==> path[..|name|] == path;
  }

  /** The names on a ring, in order. */
  ghost function Names(s: seq<Dev>): (r: seq<string>)
    reads s
    ensures |r| == |s| && forall i :: 0 <= i < |s| ==> r[i] == s[i].data.name
  {
    seq(|s|, i requires 0 <= i < |s| reads s => s[i].data.name)
  }

  /** r is the first element of s whose name matches; null if there is none. */
  ghost predicate IsFirst(r: Node?<DevInfo>, s: seq<Dev>, names: seq<string>, matches: string -> bool)
    requires |names| == |s|
  {
    if r == null then forall i :: 0 <= i < |s| ==> !matches(names[i])
    else exists k :: 0 <= k < |s| && r == s[k] && matches(names[k])
                     && forall i :: 0 <= i < k ==> !matches(names[i])
  }

  ghost predicate Named(list: Ring<DevInfo>)
    reads list, list.head, list.entries
  {
    list.Valid() && forall i :: 0 <= i < |list.entries| ==> CString(list.entries[i].data.name)
  }

  /** The inner loop of alt_find_dev. */
  method SameName(name: string, dev: string) returns (b: bool)
    requires CString(name) && CString(dev)
    ensures b <==> NamesDevice(name, dev)
    ensures b <==> name == dev && |name| <= 1000
  {
    var len := 0;
    while At(name, len) != '\0' && At(dev, len) != '\0' && len < MAX_STRING_LENGTH
      invariant len <= |name| && len <= |dev| && len <= MAX_STRING_LENGTH
      invariant name[..len] == dev[..len]
      decreases |name| - len
    {
      if At(dev, len) != At(name, len) { break; }
      len := len + 1;
    }
    b := At(name, len) == '\0' && At(dev, len) == '\0';
    assert b ==> name == name[..len] && dev == dev[..len];
  }

  /** The inner loop of alt_find_file. */
  method OwnsPath(name: string, mount: string) returns (b: bool)
    requires CString(name) && CString(mount)
    ensures b <==> BelowMount(name, mount)
  {
    var len := 0;
    while len < MAX_STRING_LENGTH
      invariant len <= MAX_STRING_LENGTH && len <= |Stem(mount)| && len <= |name|
      invariant mount[..len] == name[..len]
    {
      if (At(mount, len) == '/' && At(mount, len + 1) == '\0') || At(mount, len) == '\0' {
        assert len == |Stem(mount)| && Stem(mount) == mount[..len];
        return At(name, len) == '/' || At(name, len) == '\0';
      }
      if At(mount, len) != At(name, len) { return false; }
      len := len + 1;
    }
    return false;
  }

  /** alt_find_dev. There may be no list at all. */
  method FindDev(name: string, list: Ring?<DevInfo>) returns (r: Node?<DevInfo>)
    requires CString(name) && (list != null ==> Named(list))
    ensures if list == null then r == null
            else IsFirst(r, list.entries, Names(list.entries), d => NamesDevice(name, d))
  {
    if list == null { return null; }
    ghost var all, k := [list.head] + list.entries, 0;
    assert all[0].next == Cyclic(all, 1);
    var next := list.head.next;
    while next != list.head
      invariant k <= |list.entries| && next == Cyclic(all, k + 1)
      invariant forall i :: 0 <= i < k ==> !NamesDevice(name, Names(list.entries)[i])
      decreases |all| - k
    {
      assert all[k + 1] == list.entries[k] && all[k + 1].next == Cyclic(all, k + 2);
      var found := SameName(name, next.data.name);
      if found { return next; }
      next := next.next;
      k := k + 1;
    }
    return null;
  }

  /** alt_find_file. */
  method FindFile(name: string, list: Ring<DevInfo>) returns (r: Node?<DevInfo>)
    requires CString(name) && Named(list)
    ensures IsFirst(r, list.entries, Names(list.entries), m => BelowMount(name, m))
  {
    ghost var all, k := [list.head] + list.entries, 0;
    assert all[0].next == Cyclic(all, 1);
    var next := list.head.next;
    while next != list.head
      invariant k <= |list.entries| && next == Cyclic(all, k + 1)
      invariant forall i :: 0 <= i < k ==> !BelowMount(name, Names(list.entries)[i])
      decreases |all| - k
    {
      assert all[k + 1] == list.entries[k] && all[k + 1].next == Cyclic(all, k + 2);
      var found := OwnsPath(name, next.data.name);
      if found { return next; }
      next := next.next;
      k := k + 1;
    }
    return null;
  }
}
