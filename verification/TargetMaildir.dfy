/** Moving a message to another maildir: the root of the maildirs is recovered
    from the path of the message and the maildir it was indexed with
    (get_target_mdir in mu-msg.c, against the walk in mu-maildir.c). */
module TargetMaildir {
  import opened Options
  import opened MaildirTree
  import opened MaildirNames
  import opened NameRoundTrips

  datatype Result = Ok(path: string) | NoMaildir | BadPath | Mismatch

  /** get_target_mdir */
  function GetTarget(maildir: Option<string>, path: string, target: string): Result
    requires LongEnough(path)
  {
    if maildir.None? then NoMaildir
    else
      var root := MaildirFromPath(path);
      if root.None? then BadPath
      else if !HasSuffix(root.value, maildir.value) && maildir.value != "/" then Mismatch
      else
        // only a maildir that is no suffix and still passed is the top level
        var notTopLevel := HasSuffix(root.value, maildir.value);
        Ok((if notTopLevel then root.value[..|root.value| - |maildir.value|] else root.value) + target)
  }

  /** get_target_mdir, cutting its copy of the path in place. */
  method GetTargetMdir(maildir: Option<string>, path: string, target: string) returns (r: Result)
    requires LongEnough(path)
    ensures r == GetTarget(maildir, path, target)
  {
    if maildir == None {
      return NoMaildir;
    }
    var found := MaildirFromPath(path);
    if found == None {
      return BadPath;
    }
    var rootmaildir := found.value;
    var notTopLevel := true;
    if !HasSuffix(rootmaildir, maildir.value) {
      notTopLevel := maildir.value != "/";
      if notTopLevel {
        return Mismatch;
      }
    }
    if notTopLevel {
      rootmaildir := rootmaildir[..|rootmaildir| - |maildir.value|];
    }
    return Ok(rootmaildir + target);
  }

  /** For a message in a maildir folder m: what comes before its maildir in m is
      the root that the target is put under. If m does not end with the maildir
      there is a mismatch, except that "/" then stands for m itself. */
  lemma {:induction false} TargetByParts(maildir: string, m: string, leaf: string, name: string, target: string,
                                         root: string)
    requires FileName(name) && (leaf == "cur" || leaf == "new")
    ensures var p := m + "/" + leaf + "/" + name;
            && LongEnough(p) && GetTarget(None, p, target) == NoMaildir
            && (m == root + maildir ==> GetTarget(Some(maildir), p, target) == Ok(root + target))
            && ((forall r :: m != r + maildir) ==>
                  GetTarget(Some(maildir), p, target) == if maildir == "/" then Ok(m + target) else Mismatch)
  {
    LeafPath(m, leaf, name);
    if m == root + maildir {
      assert m[|m| - |maildir|..] == maildir && m[..|m| - |maildir|] == root;
    }
    if HasSuffix(m, maildir) {
      assert m == m[..|m| - |maildir|] + maildir;
    }
  }

  /** A message whose directory is no cur or new has no target. */
  lemma {:induction false} NoTarget(maildir: string, m: string, leaf: string, name: string, target: string)
    requires FileName(leaf) && FileName(name)
    ensures var p := m + "/" + leaf + "/" + name;
            LongEnough(p) && (GetTarget(Some(maildir), p, target) == BadPath
                              <==> forall s :: leaf != s + "cur" && leaf != s + "new")
  {
    MaildirIff(m, leaf, name);
  }

  // ---- paths and maildirs as the walk makes them ----

  /** Names below a root, as a path string. */
  function Render(root: string, comps: Path): string {
    root + Joined(comps)
  }

  function Joined(comps: Path): string {
    if comps == [] then "" else Joined(comps[..|comps| - 1]) + "/" + comps[|comps| - 1]
  }

  /** The maildir of a directory, as get_mdir_for_path builds it on the way. */
  ghost function MdirAlong(comps: Path): Option<string> {
    if comps == [] then None else Some(MdirFor(MdirAlong(comps[..|comps| - 1]), comps[|comps| - 1]))
  }

  lemma {:induction false} ItemMdir(d: Dir, path: Path, atRoot: bool, it: Item)
    requires it in Items(d, path, MdirAlong(path), atRoot)
    ensures it.mdir == MdirAlong(it.dir) && IsLeaf(it.dir, atRoot) && !IgnoreFile(it.name)
    decreases d, 1
  {
    ItemsOfEntries(d, |d.entries|, path, MdirAlong(path), atRoot);
    assert it in ItemsUpTo(d, |d.entries|, path, MdirAlong(path), atRoot);
    var i :| 0 <= i < |d.entries| && it in EntryItems(d.entries[i], path, MdirAlong(path), atRoot);
    var e := d.entries[i];
    assert e in d.entries;
    if e.Sub? {
      var sub := path + [e.name];
      assert sub[..|sub| - 1] == path;
      assert MdirAlong(sub) == Some(MdirFor(MdirAlong(path), e.name));
      ItemMdir(e.dir, sub, atRoot, it);
    }
  }

  ghost predicate PlainFolder(name: string) {
    FileName(name) && name != "cur" && name != "new" && name != "tmp"
  }

  lemma {:induction false} PlainMdir(ds: Path)
    requires forall i :: 0 <= i < |ds| ==> PlainFolder(ds[i])
    ensures MdirAlong(ds) == if ds == [] then None else Some(Joined(ds))
    ensures ds != [] ==> |Joined(ds)| > 1
    decreases |ds|
  {
    if ds != [] {
      PlainMdir(ds[..|ds| - 1]);
      assert PlainFolder(ds[|ds| - 1]);
    }
  }

  lemma {:induction false} LeafMdir(dir: Path, ds: Path, leaf: string)
    requires dir == ds + [leaf] && (leaf == "cur" || leaf == "new") && forall i :: 0 <= i < |ds| ==> PlainFolder(ds[i])
    ensures MdirAlong(dir) == Some(if ds == [] then "/" else Joined(ds))
  {
    PlainMdir(ds);
    assert dir[..|dir| - 1] == ds;
  }

  /** Root recovery: for every message the walk from `root` finds with cur and
      new as leaf names only, the target is put under that very root, with the
      one exception of a top-level message under a root that ends in '/'. */
  lemma {:induction false} RootRecovered(root: string, tree: Dir, atRoot: bool, it: Item, ds: Path, leaf: string,
                              target: string)
    requires it in Items(tree, [], None, atRoot) && FileName(it.name)
    requires it.dir == ds + [leaf] && (leaf == "cur" || leaf == "new")
    requires forall i :: 0 <= i < |ds| ==> PlainFolder(ds[i])
    ensures LongEnough(Render(root, it.Path()))
    ensures GetTarget(it.mdir, Render(root, it.Path()), target) == Ok(root + target)
            <==> !(ds == [] && HasSuffix(root, "/"))
  {
    ItemMdir(tree, [], atRoot, it);
    LeafMdir(it.dir, ds, leaf);
    RenderLeaf(root, it, ds, leaf);
    var m := root + Joined(ds);
    LeafPath(m, leaf, it.name);
    if ds != [] {
      Below(root, Joined(ds), Render(root, it.Path()), target);
    } else {
      assert m == root;
      TopLevel(root, Render(root, it.Path()), target);
    }
  }

  lemma {:induction false} RenderLeaf(root: string, it: Item, ds: Path, leaf: string)
    requires it.dir == ds + [leaf]
    ensures Render(root, it.Path()) == root + Joined(ds) + "/" + leaf + "/" + it.name
  {
    assert it.dir[..|it.dir| - 1] == ds;
    assert it.Path()[..|it.Path()| - 1] == it.dir;
    assert Joined(it.dir) == Joined(ds) + "/" + leaf;
    assert Joined(it.Path()) == Joined(it.dir) + "/" + it.name;
  }

  lemma {:induction false} Below(root: string, maildir: string, path: string, target: string)
    requires LongEnough(path) && MaildirFromPath(path) == Some(root + maildir)
    ensures GetTarget(Some(maildir), path, target) == Ok(root + target)
  {
    var m := root + maildir;
    assert m[|m| - |maildir|..] == maildir && m[..|m| - |maildir|] == root;
  }

  lemma {:induction false} TopLevel(root: string, path: string, target: string)
    requires LongEnough(path) && MaildirFromPath(path) == Some(root)
    ensures GetTarget(Some("/"), path, target) == Ok(root + target) <==> !HasSuffix(root, "/")
  {
    if HasSuffix(root, "/") {
      assert |root[..|root| - 1] + target| < |root + target|;
    }
  }

  /** A path ends in /cur or /new, which is what the walk looks at, exactly when
      its last name is cur or new. */
  lemma {:induction false} LeafByString(root: string, comps: Path)
    requires comps != [] && FileName(comps[|comps| - 1])
    ensures HasSuffix(Render(root, comps), "/cur") || HasSuffix(Render(root, comps), "/new")
            <==> IsLeaf(comps, false)
  {
    var name := comps[|comps| - 1];
    var front := root + Joined(comps[..|comps| - 1]);
    RenderLast(root, comps);
    SuffixName(front, name, "cur");
    SuffixName(front, name, "new");
    assert "/" + "cur" == "/cur" && "/" + "new" == "/new";
  }

  lemma {:induction false} RenderLast(root: string, comps: Path)
    requires comps != []
    ensures Render(root, comps) == root + Joined(comps[..|comps| - 1]) + "/" + comps[|comps| - 1]
  {
  }

  lemma {:induction false} SuffixName(front: string, name: string, leaf: string)
    requires FileName(name) && (leaf == "cur" || leaf == "new")
    ensures HasSuffix(front + "/" + name, "/" + leaf) <==> name == leaf
  {
    var p := front + "/" + name;
    if name == leaf {
      assert p[|p| - 4..] == "/" + leaf;
    }
    if HasSuffix(p, "/" + leaf) {
      LastSlashAt(p, |front|);
      assert p[|p| - 4] == ("/" + leaf)[0];
      assert forall j :: 1 <= j < 4 ==> p[|p| - 4 + j] == ("/" + leaf)[j];
      LastSlashAt(p, |p| - 4);
      assert name == p[|p| - 3..];
    }
  }
}
