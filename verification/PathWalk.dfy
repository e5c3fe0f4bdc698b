/** The traversal of mu-container.c that numbers the containers: a growable
    array of counters, the path strings made from it, and the thread-info
    table. */
module PathWalk {
  import opened Options
  import opened Forests
  import opened ThreadKeys
  import opened ThreadPaths
  import opened Cells
  import opened Containers

  const INITIAL_LEN := 100
  const SIZEOF_INT := 4

  class Path {
    var data: array<int>
    var len: nat

    ghost predicate Valid()
      reads this, data
    {
      data.Length == len && len > 0
    }

    /** The counters below `level` are the 1-based sibling indices pfx. */
    ghost predicate At(pfx: seq<nat>)
      reads this, data
    {
      Valid() && |pfx| < len && forall u :: 0 <= u < |pfx| ==> data[u] == pfx[u] + 1
    }

    /** path_new */
    constructor ()
      ensures Valid() && len == INITIAL_LEN && data[0] == 0 && fresh(data)
    {
      len := INITIAL_LEN;
      data := new int[INITIAL_LEN](i => 0);
    }

    /** g_renew to twice the length, and the memset that clears only as many
        bytes as there were ints; the other new cells hold anything. */
    method Grow()
      requires Valid()
      modifies this
      ensures Valid() && len == 2 * old(len) && fresh(data)
      ensures forall u :: 0 <= u < old(len) ==> data[u] == old(data[u])
    {
      var bigger := new int[2 * len];
      forall u | 0 <= u < len {
        bigger[u] := data[u];
      }
      forall u | len <= u < len + len / SIZEOF_INT {
        bigger[u] := 0;
      }
      data, len := bigger, 2 * len;
    }

    /** path_inc. Only cells below the old length are read. */
    method Inc(index: nat)
      requires Valid() && index < len
      modifies this, data
      ensures Valid() && index + 1 < len && (data == old(data) || fresh(data))
      ensures forall u :: 0 <= u < index ==> data[u] == old(data[u])
      ensures data[index] == old(data[index]) + 1 && data[index + 1] == 0
    {
      if index + 1 >= len {
        Grow();
      }
      data[index] := data[index] + 1;
      data[index + 1] := 0;
    }

    /** path_to_string */
    method ToString(digits: nat, ghost pos: seq<nat>) returns (str: Option<string>)
      requires At(pos) && pos != [] && data[|pos|] == 0
      ensures str == Some(PathString(pos, digits))
    {
      str := None;
      var u := 0;
      while data[u] != 0
        invariant 0 <= u <= |pos|
        invariant if u == 0 then str == None else str == Some(PathString(pos[..u], digits))
        decreases |pos| - u
      {
        var segm := Segment(data[u] - 1, digits);
        assert pos[..u + 1][..u] == pos[..u];
        if str == None {
          str := Some(segm);
        } else {
          str := Some(str.value + ":" + segm);
        }
        u := u + 1;
      }
      assert pos[..u] == pos;
    }
  }

  /** count_colons: the first character is skipped. */
  method CountColons(str: string) returns (num: nat)
    requires str != []
    ensures num == Colons(str[1..])
  {
    num := 0;
    var u := 1;
    while u < |str|
      invariant 1 <= u <= |str| && num + Colons(str[u..]) == Colons(str[1..])
    {
      if str[u] == ':' {
        num := num + 1;
      }
      u := u + 1;
    }
  }

  class ThreadInfoTable {
    var hash: map<nat, ThreadInfo>

    constructor ()
      ensures hash == map[]
    {
      hash := map[];
    }
  }

  /** The label of the parent is in the heap, and the list that f continues is
      its child list. */
  ghost predicate ParentSeen(H: Cells, parent: Option<Label>, f: Forest, i: nat) {
    parent.Some? ==>
      && parent.value.id in H && Holds(H[parent.value.id], parent.value)
      && H[parent.value.id].child.Some?
      && (i == 0 ==> f.Nil? || H[parent.value.id].child == Head(f))
      && (i > 0 ==> H[parent.value.id].child.value !in Ids(f))
  }

  ghost function LabelId(parent: Option<Label>): Option<Id> {
    if parent.Some? then Some(parent.value.id) else None
  }

  /** add_to_thread_info_hash */
  method AddToThreadInfoHash(T: IdTable, info: ThreadInfoTable, c: Container, threadpath: string,
                             ghost f: Forest, ghost i: nat, ghost parent: Option<Label>)
    requires T.Valid() && T.Known(c) && f.Cons? && f.top.id == c.id && threadpath != []
    requires ListRep(T.cells, f, LabelId(parent), Stale, None) && ParentSeen(T.cells, parent, f, i)
    modifies info
    ensures info.hash == old(info.hash)[f.top.docid :=
              ThreadInfo(threadpath, Colons(threadpath[1..]), Props(f.top, f.kids, parent, i))]
  {
    var parentC := T.Parent(c);
    var isRoot := parentC == null;
    var firstChild := if isRoot then false else T.Child(parentC) == c;
    var emptyParent := if isRoot then false else T.Message(parentC) == None;
    var isDup := Dup in T.Flags(c);
    var hasChild := T.Child(c) != null;
    var level := CountColons(threadpath);
    var prop := (if isRoot then {Root} else {})
                + (if firstChild then {FirstChild} else {})
                + (if emptyParent then {EmptyParent} else {})
                + (if isDup then {IsDup} else {})
                + (if hasChild then {HasChild} else {});
    info.hash := info.hash[T.DocId(c) := ThreadInfo(threadpath, level, prop)];
  }

  /** add_thread_info */
  method AddThreadInfo(T: IdTable, info: ThreadInfoTable, c: Container, path: Path, digits: nat,
                       ghost f: Forest, ghost pfx: seq<nat>, ghost i: nat, ghost parent: Option<Label>)
    requires T.Valid() && T.Known(c) && f.Cons? && f.top.id == c.id
    requires ListRep(T.cells, f, LabelId(parent), Stale, None) && ParentSeen(T.cells, parent, f, i)
    requires path.At(pfx + [i]) && path.data[|pfx| + 1] == 0
    modifies info
    ensures info.hash == Tabulate(old(info.hash), [Entry(f.top, pfx + [i], Props(f.top, f.kids, parent, i))], digits)
  {
    ghost var pos := pfx + [i];
    ghost var e := Entry(f.top, pos, Props(f.top, f.kids, parent, i));
    LevelIsDepth(pos, digits);
    var pathstr := path.ToString(digits, pos);
    AddToThreadInfoHash(T, info, c, pathstr.value, f, i, parent);
    assert Tabulate(old(info.hash), [e], digits)
        == Tabulate(old(info.hash)[e.node.docid := Info(e, digits)], [], digits);
  }

  lemma {:induction false} KidsSeen(H: Cells, f: Forest, p: Option<Id>)
    requires f.Cons? && ListRep(H, f, p, Stale, None)
    ensures f.kids.Cons? ==> ParentSeen(H, Some(f.top), f.kids, 0)
  {
  }

  lemma {:induction false} RestSeen(H: Cells, f: Forest, i: nat, parent: Option<Label>)
    requires f.Cons? && NoDup(f) && ParentSeen(H, parent, f, i)
    ensures ParentSeen(H, parent, f.rest, i + 1)
  {
  }

  /** The counter of this level is advanced and the container reported. */
  method Visit(T: IdTable, c: Container, level: nat, path: Path, info: ThreadInfoTable, digits: nat,
               ghost f: Forest, ghost pfx: seq<nat>, ghost i: nat, ghost parent: Option<Label>)
    requires T.Valid() && T.Known(c) && f.Cons? && f.top.id == c.id
    requires ListRep(T.cells, f, LabelId(parent), Stale, None) && ParentSeen(T.cells, parent, f, i)
    requires level == |pfx| && path.At(pfx) && path.data[level] == i
    modifies path, path.data, info
    ensures path.At(pfx + [i]) && path.data[level + 1] == 0 && (path.data == old(path.data) || fresh(path.data))
    ensures info.hash == Tabulate(old(info.hash), [Entry(f.top, pfx + [i], Props(f.top, f.kids, parent, i))], digits)
  {
    path.Inc(level);
    assert path.At(pfx + [i]);
    AddThreadInfo(T, info, c, path, digits, f, pfx, i, parent);
  }

  /** The container and its descendants. */
  method PathTree(T: IdTable, c: Container, level: nat, path: Path, info: ThreadInfoTable, digits: nat,
                  ghost f: Forest, ghost pfx: seq<nat>, ghost i: nat, ghost parent: Option<Label>)
    requires T.Valid() && T.Known(c) && f.Cons? && f.top.id == c.id && NoDup(f)
    requires ListRep(T.cells, f, LabelId(parent), Stale, None) && ParentSeen(T.cells, parent, f, i)
    requires level == |pfx| && path.At(pfx) && path.data[level] == i
    modifies path, path.data, info
    ensures path.At(pfx) && path.data[level] == i + 1 && (path.data == old(path.data) || fresh(path.data))
    ensures Located(TreeEntries(f.top, f.kids, pfx, i, parent))
    ensures info.hash == Tabulate(old(info.hash), TreeEntries(f.top, f.kids, pfx, i, parent), digits)
    decreases f, 0
  {
    Visit(T, c, level, path, info, digits, f, pfx, i, parent);
    KidsSeen(T.cells, f, LabelId(parent));
    PathForeach(T, T.Child(c), level + 1, path, info, digits, f.kids, pfx + [i], 0, Some(f.top));
    BackToLevel(path, pfx, i);
    TabulateConcat(old(info.hash), [Entry(f.top, pfx + [i], Props(f.top, f.kids, parent, i))],
               Entries(f.kids, pfx + [i], 0, Some(f.top)), digits);
  }

  /** mu_container_path_foreach_real with the callback add_thread_info: at
      every callback the counters are the declared position, whatever the
      grown array contained. */
  method PathForeach(T: IdTable, c: Container?, level: nat, path: Path, info: ThreadInfoTable, digits: nat,
                     ghost f: Forest, ghost pfx: seq<nat>, ghost i: nat, ghost parent: Option<Label>)
    requires T.Valid() && T.Known(c) && IdOf(c) == Head(f) && NoDup(f)
    requires ListRep(T.cells, f, LabelId(parent), Stale, None) && (f.Cons? ==> ParentSeen(T.cells, parent, f, i))
    requires level == |pfx| && path.At(pfx) && path.data[level] == i
    modifies path, path.data, info
    ensures path.At(pfx) && (path.data == old(path.data) || fresh(path.data))
    ensures Located(Entries(f, pfx, i, parent))
    ensures info.hash == Tabulate(old(info.hash), Entries(f, pfx, i, parent), digits)
    decreases f, 1
  {
    if c == null {
      return;
    }
    PathTree(T, c, level, path, info, digits, f, pfx, i, parent);
    RestSeen(T.cells, f, i, parent);
    PathForeach(T, T.Next(c), level, path, info, digits, f.rest, pfx, i + 1, parent);
    TabulateConcat(old(info.hash), TreeEntries(f.top, f.kids, pfx, i, parent), Entries(f.rest, pfx, i + 1, parent),
        digits);
  }

  lemma {:induction false} BackToLevel(path: Path, pfx: seq<nat>, i: nat)
    requires path.At(pfx + [i])
    ensures path.At(pfx) && path.data[|pfx|] == i + 1
  {
    assert (pfx + [i])[|pfx|] == i;
    assert forall u :: 0 <= u < |pfx| ==> (pfx + [i])[u] == pfx[u];
  }

  /** mu_container_thread_info_hash_new */
  method ThreadInfoHashNew(T: IdTable, root: Container, matchnum: nat, ghost f: Forest) returns (info: ThreadInfoTable)
    requires T.Valid() && T.Known(root) && Some(root.id) == Head(f) && NoDup(f)
    requires ListRep(T.cells, f, None, Stale, None) && matchnum > 0
    ensures fresh(info) && Located(Entries(f, [], 0, None))
    ensures info.hash == Tabulate(map[], Entries(f, [], 0, None), DigitNum(matchnum))
  {
    info := new ThreadInfoTable();
    var path := new Path();
    PathForeach(T, root, 0, path, info, DigitNum(matchnum), f, [], 0, None);
  }
}
