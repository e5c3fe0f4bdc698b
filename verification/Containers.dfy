/** The containers of mu-container.c on the heap, owned by the id table. Every
    assignment to a pointer field goes through a one-line setter that keeps
    the ghost map `cells` in step; the list operations are then specified by
    the forests they turn into one another. */
module Containers {
  import opened Options
  import opened Forests
  import opened Cells

  class Container {
    const id: Id
    var parent: Container?
    var child: Container?
    var next: Container?
    var last: Container?
    var msg: Option<Msg>
    var docid: nat
    var flags: set<Flag>

    /** mu_container_new */
    constructor (msg: Option<Msg>, docid: nat, id: Id, flags: set<Flag>)
      ensures this.id == id && this.msg == msg && this.docid == docid && this.flags == flags
      ensures parent == null && child == null && next == null && last == null
    {
      this.id, this.msg, this.docid, this.flags := id, msg, docid, flags;
      parent, child, next, last := null, null, null, null;
    }
  }

  ghost function IdOf(c: Container?): Option<Id> {
    if c == null then None else Some(c.id)
  }

  ghost predicate InStep(c: Container, l: Cell)
    reads c
  {
    l == Cell(IdOf(c.parent), IdOf(c.child), IdOf(c.next), IdOf(c.last), c.msg, c.docid, c.flags)
  }

  class IdTable {
    var table: map<Id, Container>
    ghost var cells: Cells

    ghost predicate Known(c: Container?)
      reads this
    {
      c != null ==> c.id in table && table[c.id] == c
    }

    ghost predicate Fine(i: Id)
      requires i in table && i in cells
      reads this, table.Values
    {
      table[i].id == i
      && InStep(table[i], cells[i])
      && Known(table[i].parent) && Known(table[i].child) && Known(table[i].next) && Known(table[i].last)
    }

    /** Every entry of the table is filed under its own key, is in step with
        its cell, and points only to entries of the table. */
    ghost predicate Valid()
      reads this, table.Values
    {
      cells.Keys == table.Keys && forall i {:trigger Fine(i)} :: i in table ==> Fine(i)
    }

    // ---- reading a field ----

    function Parent(c: Container): (x: Container?)
      requires Valid() && Known(c)
      reads this, table.Values
      ensures Known(x) && IdOf(x) == cells[c.id].parent
    {
      assert Fine(c.id);
      c.parent
    }

    function Child(c: Container): (x: Container?)
      requires Valid() && Known(c)
      reads this, table.Values
      ensures Known(x) && IdOf(x) == cells[c.id].child
    {
      assert Fine(c.id);
      c.child
    }

    function Next(c: Container): (x: Container?)
      requires Valid() && Known(c)
      reads this, table.Values
      ensures Known(x) && IdOf(x) == cells[c.id].next
    {
      assert Fine(c.id);
      c.next
    }

    function Last(c: Container): (x: Container?)
      requires Valid() && Known(c)
      reads this, table.Values
      ensures Known(x) && IdOf(x) == cells[c.id].last
    {
      assert Fine(c.id);
      c.last
    }

    function Message(c: Container): (m: Option<Msg>)
      requires Valid() && Known(c)
      reads this, table.Values
      ensures m == cells[c.id].msg
    {
      assert Fine(c.id);
      c.msg
    }

    function DocId(c: Container): (d: nat)
      requires Valid() && Known(c)
      reads this, table.Values
      ensures d == cells[c.id].docid
    {
      assert Fine(c.id);
      c.docid
    }

    function Flags(c: Container): (s: set<Flag>)
      requires Valid() && Known(c)
      reads this, table.Values
      ensures s == cells[c.id].flags
    {
      assert Fine(c.id);
      c.flags
    }

    function Lookup(i: Id): (c: Container)
      requires Valid() && i in table
      reads this, table.Values
      ensures Known(c) && c.id == i
    {
      assert Fine(i);
      table[i]
    }

    constructor ()
      ensures Valid() && table == map[] && cells == map[]
    {
      table, cells := map[], map[];
    }

    // ---- setters ----

    method SetParent(c: Container, p: Container?)
      requires Valid() && Known(c) && Known(p)
      modifies c`parent, this`cells
      ensures Valid() && cells == old(cells)[c.id := old(cells)[c.id].(parent := IdOf(p))]
    {
      c.parent := p;
      cells := cells[c.id := cells[c.id].(parent := IdOf(p))];
      forall i | i in table ensures Fine(i) { assert old(Fine(i)); }
    }

    method SetChild(c: Container, x: Container?)
      requires Valid() && Known(c) && Known(x)
      modifies c`child, this`cells
      ensures Valid() && cells == old(cells)[c.id := old(cells)[c.id].(child := IdOf(x))]
    {
      c.child := x;
      cells := cells[c.id := cells[c.id].(child := IdOf(x))];
      forall i | i in table ensures Fine(i) { assert old(Fine(i)); }
    }

    method SetNext(c: Container, x: Container?)
      requires Valid() && Known(c) && Known(x)
      modifies c`next, this`cells
      ensures Valid() && cells == old(cells)[c.id := old(cells)[c.id].(next := IdOf(x))]
    {
      c.next := x;
      cells := cells[c.id := cells[c.id].(next := IdOf(x))];
      forall i | i in table ensures Fine(i) { assert old(Fine(i)); }
    }

    method SetLast(c: Container, x: Container?)
      requires Valid() && Known(c) && Known(x)
      modifies c`last, this`cells
      ensures Valid() && cells == old(cells)[c.id := old(cells)[c.id].(last := IdOf(x))]
    {
      c.last := x;
      cells := cells[c.id := cells[c.id].(last := IdOf(x))];
      forall i | i in table ensures Fine(i) { assert old(Fine(i)); }
    }

    method SetMsg(c: Container, msg: Msg, docid: nat)
      requires Valid() && Known(c)
      modifies c`msg, c`docid, this`cells
      ensures Valid() && cells == old(cells)[c.id := old(cells)[c.id].(msg := Some(msg), docid := docid)]
    {
      c.msg, c.docid := Some(msg), docid;
      cells := cells[c.id := cells[c.id].(msg := Some(msg), docid := docid)];
      forall i | i in table ensures Fine(i) { assert old(Fine(i)); }
    }

    method AddFlag(c: Container, flag: Flag)
      requires Valid() && Known(c)
      modifies c`flags, this`cells
      ensures Valid() && cells == old(cells)[c.id := old(cells)[c.id].(flags := old(cells)[c.id].flags + {flag})]
    {
      c.flags := c.flags + {flag};
      cells := cells[c.id := cells[c.id].(flags := cells[c.id].flags + {flag})];
      forall i | i in table ensures Fine(i) { assert old(Fine(i)); }
    }

    /** g_hash_table_insert of a new container under its own key. */
    method Insert(c: Container)
      requires Valid() && c.id !in table
      requires c.parent == null && c.child == null && c.next == null && c.last == null
      modifies this
      ensures Valid() && Known(c) && table == old(table)[c.id := c]
      ensures cells == old(cells)[c.id := Cell(None, None, None, None, c.msg, c.docid, c.flags)]
    {
      table := table[c.id := c];
      cells := cells[c.id := Cell(None, None, None, None, c.msg, c.docid, c.flags)];
      forall i | i in table ensures Fine(i) {
        if i != c.id { assert old(Fine(i)); }
      }
    }
  }
}
