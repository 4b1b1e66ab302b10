/** The abstract filesystem the file tools act on: a tree of directories whose
    entries are kept in name order, which is the order `filepath.Walk` visits
    them in. Paths are `/`-separated and relative to the working directory. */
module FileSystem {
  import opened Results
  import opened Text

  datatype Node = File(content: string) | Dir(entries: seq<Entry>)
  datatype Entry = Entry(name: string, node: Node)

  /** A name as it can appear inside a directory. */
  predicate ValidName(name: string) {
    |name| > 0 && '/' !in name && name != "."
  }

  predicate ValidPath(p: seq<string>) {
    forall k :: 0 <= k < |p| ==> ValidName(p[k])
  }

  /** Entries in strictly increasing name order (so names are unique). */
  predicate Sorted(es: seq<Entry>) {
    forall i, j :: 0 <= i < j < |es| ==> Below(es[i].name, es[j].name)
  }

  predicate Valid(n: Node)
    decreases n
  {
    match n
    case File(_) => true
    case Dir(es) =>
      Sorted(es) && forall i :: 0 <= i < |es| ==> ValidName(es[i].name) && Valid(es[i].node)
  }

  /** A well-formed tree whose root is the working directory. */
  type Tree = n: Node | Valid(n) && n.Dir? witness Dir([])

  // ---------------------------------------------------------------------
  // OS errors, rendered the way Go's `*PathError` prints them

  datatype Errno = NotExist | NotDir | IsDir {
    function Text(): string {
      match this
      case NotExist => "no such file or directory"
      case NotDir => "not a directory"
      case IsDir => "is a directory"
    }
  }

  datatype PathError = PathError(op: string, path: string, errno: Errno) {
    function Text(): string {
      op + " " + path + ": " + errno.Text()
    }
  }

  // ---------------------------------------------------------------------
  // Path strings

  function Keep(segment: string): seq<string> {
    if segment == "" || segment == "." then [] else [segment]
  }

  /** Splits `s` at `/`, `cur` being the segment read so far. */
  function Segments(s: string, cur: string): (r: seq<string>)
    requires '/' !in cur
    ensures ValidPath(r)
    decreases |s|
  {
    if |s| == 0 then Keep(cur)
    else if s[0] == '/' then Keep(cur) + Segments(s[1..], "")
    else Segments(s[1..], cur + [s[0]])
  }

  /** The components of a path string: empty and `.` components name the
      directory they are in and are dropped. */
  function Components(path: string): (r: seq<string>)
    ensures ValidPath(r)
  {
    Segments(path, "")
  }

  /** The path string of a sequence of components. */
  function Join(p: seq<string>): string {
    if |p| == 0 then "" else if |p| == 1 then p[0] else p[0] + "/" + Join(p[1..])
  }

  lemma {:induction false} SegmentsAppend(a: string, t: string, cur: string)
    requires '/' !in cur && '/' !in a
    ensures Segments(a + t, cur) == Segments(t, cur + a)
    decreases |a|
  {
    if |a| == 0 {
      assert a + t == t;
      assert cur + a == cur;
    } else {
      assert (a + t)[0] == a[0];
      assert (a + t)[1..] == a[1..] + t;
      assert cur + [a[0]] + a[1..] == cur + a;
      SegmentsAppend(a[1..], t, cur + [a[0]]);
    }
  }

  /** Splitting a joined path gives back its components. */
  lemma {:induction false} ComponentsOfJoin(p: seq<string>)
    requires ValidPath(p)
    ensures Components(Join(p)) == p
    decreases |p|
  {
    if |p| == 1 {
      SegmentsAppend(p[0], "", "");
      assert p[0] + "" == p[0];
    } else if |p| > 1 {
      var rest := "/" + Join(p[1..]);
      assert Join(p) == p[0] + rest;
      SegmentsAppend(p[0], rest, "");
      assert "" + p[0] == p[0];
      assert rest[1..] == Join(p[1..]);
      ComponentsOfJoin(p[1..]);
    }
  }

  /** A trailing separator does not change the components. */
  lemma {:induction false} SegmentsTrailingSlash(s: string, cur: string)
    requires '/' !in cur
    ensures Segments(s + "/", cur) == Segments(s, cur)
    decreases |s|
  {
    if |s| == 0 {
      assert s + "/" == "/";
      assert Segments("/", cur) == Keep(cur) + Segments("", "");
    } else {
      assert (s + "/")[0] == s[0];
      assert (s + "/")[1..] == s[1..] + "/";
      if s[0] == '/' {
        SegmentsTrailingSlash(s[1..], "");
      } else {
        SegmentsTrailingSlash(s[1..], cur + [s[0]]);
      }
    }
  }

  // ---------------------------------------------------------------------
  // Directory entries

  /** The index of the first entry named `name`. */
  function Find(es: seq<Entry>, name: string): (r: Option<nat>)
    ensures r.Some? ==> r.value < |es| && es[r.value].name == name
    ensures r.Some? ==> forall j :: 0 <= j < r.value ==> es[j].name != name
    ensures r.None? <==> forall j :: 0 <= j < |es| ==> es[j].name != name
    decreases |es|
  {
    if |es| == 0 then None
    else if es[0].name == name then Some(0)
    else match Find(es[1..], name)
      case None => None
      case Some(i) => Some(i + 1)
  }

  /** The node a directory holds under `name`. */
  function Child(es: seq<Entry>, name: string): Option<Node> {
    match Find(es, name)
    case None => None
    case Some(i) => Some(es[i].node)
  }

  /** In a sorted directory every entry is the one found under its name. */
  lemma FindSorted(es: seq<Entry>, i: nat)
    requires Sorted(es) && i < |es|
    ensures Find(es, es[i].name) == Some(i)
  {
    var r := Find(es, es[i].name);
    if r.value < i {
      assert Below(es[r.value].name, es[i].name);
      BelowIrreflexive(es[i].name);
    }
  }

  /** Adds `e` at the position that keeps the names in order. */
  function Insert(es: seq<Entry>, e: Entry): (r: seq<Entry>)
    ensures |r| == |es| + 1
    ensures forall x :: x in r <==> x == e || x in es
    decreases |es|
  {
    if |es| == 0 then [e]
    else if Below(e.name, es[0].name) then [e] + es
    else [es[0]] + Insert(es[1..], e)
  }

  lemma {:induction false} InsertSorted(es: seq<Entry>, e: Entry)
    requires Sorted(es) && Find(es, e.name).None?
    ensures Sorted(Insert(es, e))
    decreases |es|
  {
    if |es| == 0 {
    } else if Below(e.name, es[0].name) {
      var r := [e] + es;
      forall i, j | 0 <= i < j < |r|
        ensures Below(r[i].name, r[j].name)
      {
        if i == 0 && j > 1 {
          BelowTransitive(e.name, es[0].name, es[j - 1].name);
        }
      }
    } else {
      BelowTotal(e.name, es[0].name);
      InsertSorted(es[1..], e);
      var tail := Insert(es[1..], e);
      var r := [es[0]] + tail;
      forall i, j | 0 <= i < j < |r|
        ensures Below(r[i].name, r[j].name)
      {
        if i == 0 {
          assert r[j] in tail;
          assert r[j] == e || r[j] in es[1..];
        }
      }
    }
  }

  /** Looking up a name after inserting `e` finds `e` under its own name and
      what was there before under every other name. */
  lemma {:induction false} ChildInsert(es: seq<Entry>, e: Entry, name: string)
    requires Find(es, e.name).None?
    ensures Child(Insert(es, e), name) == if name == e.name then Some(e.node) else Child(es, name)
    decreases |es|
  {
    if |es| == 0 {
      ChildCons(e, [], name);
    } else if Below(e.name, es[0].name) {
      ChildCons(e, es, name);
    } else {
      var tail := es[1..];
      assert es == [es[0]] + tail;
      assert es[0].name != e.name;
      ChildInsert(tail, e, name);
      ChildCons(es[0], Insert(tail, e), name);
      ChildCons(es[0], tail, name);
    }
  }

  /** Looking a name up in a directory with one more entry in front. */
  lemma ChildCons(x: Entry, rest: seq<Entry>, name: string)
    ensures Child([x] + rest, name) == if x.name == name then Some(x.node) else Child(rest, name)
  {
    var es := [x] + rest;
    assert es[0] == x && es[1..] == rest;
    if x.name != name {
      match Find(rest, name)
      case None =>
      case Some(j) =>
        assert es[j + 1] == rest[j];
        FindFirst(es, name, j + 1);
    }
  }

  /** `Find` returns the first index holding the name. */
  lemma FindFirst(es: seq<Entry>, name: string, k: nat)
    requires k < |es| && es[k].name == name
    requires forall j :: 0 <= j < k ==> es[j].name != name
    ensures Find(es, name) == Some(k)
  {
  }

  /** Replacing the node of the entry found under `name` changes only what
      is found under `name`. */
  lemma ChildUpdate(es: seq<Entry>, i: nat, name: string, node: Node, other: string)
    requires Find(es, name) == Some(i)
    ensures Find(es[i := Entry(name, node)], name) == Some(i)
    ensures Child(es[i := Entry(name, node)], other) == if other == name then Some(node) else Child(es, other)
  {
    var es' := es[i := Entry(name, node)];
    FindFirst(es', name, i);
    if other != name {
      match Find(es, other)
      case None =>
        assert forall j :: 0 <= j < |es'| ==> es'[j].name != other;
      case Some(j) =>
        FindFirst(es', other, j);
    }
  }

  lemma SortedUpdate(es: seq<Entry>, i: nat, node: Node)
    requires Sorted(es) && i < |es|
    ensures Sorted(es[i := Entry(es[i].name, node)])
  {
  }

  // ---------------------------------------------------------------------
  // Resolution

  /** Walks `p` down from `n`, as the OS resolves a path. */
  function Lookup(n: Node, p: seq<string>): Result<Node, Errno>
    decreases |p|
  {
    if |p| == 0 then Ok(n)
    else match n
      case File(_) => Err(NotDir)
      case Dir(es) =>
        match Child(es, p[0])
        case None => Err(NotExist)
        case Some(c) => Lookup(c, p[1..])
  }

  /** The content of the regular file at `p`, if there is one. */
  function FileAt(n: Node, p: seq<string>): Option<string> {
    match Lookup(n, p)
    case Ok(File(c)) => Some(c)
    case _ => None
  }

  /** Resolving `p + q` is resolving `p`, then `q` from there. */
  lemma {:induction false} LookupAppend(n: Node, p: seq<string>, q: seq<string>)
    requires Lookup(n, p).Ok?
    ensures Lookup(n, p + q) == Lookup(Lookup(n, p).value, q)
    decreases |p|
  {
    if |p| > 0 {
      assert (p + q)[0] == p[0];
      assert (p + q)[1..] == p[1..] + q;
      LookupAppend(Child(n.entries, p[0]).value, p[1..], q);
    } else {
      assert p + q == q;
    }
  }

  /** `os.ReadFile`: the content of a regular file; a directory cannot be
      read, and an empty path names nothing. */
  function ReadFile(root: Node, path: string): (r: Result<string, PathError>)
    ensures r.Ok? <==> path != "" && FileAt(root, Components(path)).Some?
    ensures r.Ok? ==> r.value == FileAt(root, Components(path)).value
  {
    if path == "" then Err(PathError("open", path, NotExist))
    else match Lookup(root, Components(path))
      case Err(e) => Err(PathError("open", path, e))
      case Ok(File(c)) => Ok(c)
      case Ok(Dir(_)) => Err(PathError("read", path, IsDir))
  }

  // ---------------------------------------------------------------------
  // Writing

  /** Creates or truncates the regular file at `p` (`os.WriteFile`). The
      directory holding it must exist, and `p` must not be a directory. */
  function WriteAt(n: Node, p: seq<string>, content: string): Result<Node, Errno>
    requires |p| > 0
    decreases |p|
  {
    match n
    case File(_) => Err(NotDir)
    case Dir(es) =>
      match Find(es, p[0])
      case None =>
        if |p| == 1 then Ok(Dir(Insert(es, Entry(p[0], File(content))))) else Err(NotExist)
      case Some(i) =>
        if |p| == 1 then
          if es[i].node.Dir? then Err(IsDir) else Ok(Dir(es[i := Entry(p[0], File(content))]))
        else
          match WriteAt(es[i].node, p[1..], content)
          case Err(e) => Err(e)
          case Ok(c) => Ok(Dir(es[i := Entry(p[0], c)]))
  }

  /** After a write the file at `p` holds exactly `content`, and every other
      path holds the same file as before (or none, as before). */
  lemma {:induction false} WriteAtFiles(n: Node, p: seq<string>, content: string, q: seq<string>)
    requires |p| > 0 && WriteAt(n, p, content).Ok?
    ensures FileAt(WriteAt(n, p, content).value, q) == if q == p then Some(content) else FileAt(n, q)
    decreases |p|
  {
    var n' := WriteAt(n, p, content).value;
    var es := n.entries;
    if |q| > 0 {
      assert q == [q[0]] + q[1..] && p == [p[0]] + p[1..];
      var i := Find(es, p[0]);
      var newChild := if |p| == 1 then File(content) else WriteAt(es[i.value].node, p[1..], content).value;
      if i.None? {
        ChildInsert(es, Entry(p[0], File(content)), q[0]);
      } else {
        ChildUpdate(es, i.value, p[0], newChild, q[0]);
        if |p| > 1 && q[0] == p[0] {
          WriteAtFiles(es[i.value].node, p[1..], content, q[1..]);
        }
      }
      assert Lookup(n', q) == if q[0] == p[0] then Lookup(newChild, q[1..]) else Lookup(n, q);
      if |p| == 1 && q[0] == p[0] && |q| > 1 {
        assert Lookup(newChild, q[1..]) == Err(NotDir);
        if i.Some? {
          assert !es[i.value].node.Dir?;
          assert Lookup(n, q) == Lookup(es[i.value].node, q[1..]);
        }
      }
    }
  }

  /** Writing keeps the tree well formed. */
  lemma {:induction false} WriteAtValid(n: Node, p: seq<string>, content: string)
    requires |p| > 0 && Valid(n) && ValidPath(p) && WriteAt(n, p, content).Ok?
    ensures Valid(WriteAt(n, p, content).value)
    decreases |p|
  {
    var es := n.entries;
    match Find(es, p[0])
    case None =>
      InsertSorted(es, Entry(p[0], File(content)));
      var es' := Insert(es, Entry(p[0], File(content)));
      forall k | 0 <= k < |es'|
        ensures ValidName(es'[k].name) && Valid(es'[k].node)
      {
        assert es'[k] in es';
      }
    case Some(i) =>
      if |p| > 1 {
        WriteAtValid(es[i].node, p[1..], content);
      }
  }

  /** A chain of fresh, empty directories along `p`. */
  function Chain(p: seq<string>): Node
    decreases |p|
  {
    if |p| == 0 then Dir([]) else Dir([Entry(p[0], Chain(p[1..]))])
  }

  /** `os.MkdirAll`: creates every missing directory along `p`. Fails, giving
      the number of components of the offending prefix, when a prefix of `p`
      is a regular file. */
  function MkdirAll(n: Node, p: seq<string>): Result<Node, nat>
    decreases |p|
  {
    match n
    case File(_) => Err(0)
    case Dir(es) =>
      if |p| == 0 then Ok(n)
      else match Find(es, p[0])
        case None => Ok(Dir(Insert(es, Entry(p[0], Chain(p[1..])))))
        case Some(i) =>
          match MkdirAll(es[i].node, p[1..])
          case Err(k) => Err(k + 1)
          case Ok(c) => Ok(Dir(es[i := Entry(p[0], c)]))
  }

  lemma {:induction false} ChainHasNoFiles(p: seq<string>, q: seq<string>)
    ensures FileAt(Chain(p), q) == None
    decreases |p|
  {
    if |q| > 0 && |p| > 0 {
      if q[0] == p[0] {
        ChainHasNoFiles(p[1..], q[1..]);
      }
    }
  }

  /** Creating directories never changes what file any path holds. */
  lemma {:induction false} MkdirAllFiles(n: Node, p: seq<string>, q: seq<string>)
    requires MkdirAll(n, p).Ok?
    ensures FileAt(MkdirAll(n, p).value, q) == FileAt(n, q)
    decreases |p|
  {
    var es := n.entries;
    if |p| > 0 && |q| > 0 {
      match Find(es, p[0])
      case None =>
        ChildInsert(es, Entry(p[0], Chain(p[1..])), q[0]);
        if q[0] == p[0] {
          ChainHasNoFiles(p[1..], q[1..]);
        }
      case Some(i) =>
        var c := MkdirAll(es[i].node, p[1..]).value;
        ChildUpdate(es, i, p[0], c, q[0]);
        if q[0] == p[0] {
          MkdirAllFiles(es[i].node, p[1..], q[1..]);
        }
    }
  }

  /** A path that resolves to nothing can be created: its directories by
      `MkdirAll`, after which the file itself can be written. */
  lemma {:induction false} MkdirAllForMissing(n: Node, p: seq<string>, content: string)
    requires |p| > 0 && Lookup(n, p) == Err(NotExist)
    ensures MkdirAll(n, p[..|p| - 1]).Ok?
    ensures WriteAt(MkdirAll(n, p[..|p| - 1]).value, p, content).Ok?
    decreases |p|
  {
    var es := n.entries;
    var parent := p[..|p| - 1];
    if |p| == 1 {
      assert parent == [];
    } else {
      assert parent[0] == p[0];
      assert parent[1..] == p[1..][..|p[1..]| - 1];
      match Find(es, p[0])
      case None =>
        var e := Entry(p[0], Chain(parent[1..]));
        ChainAccepts(parent[1..], p[|p| - 1], content);
        assert p[1..] == parent[1..] + [p[|p| - 1]];
        InsertFindsNew(es, e);
      case Some(i) =>
        MkdirAllForMissing(es[i].node, p[1..], content);
        var c := MkdirAll(es[i].node, p[1..][..|p[1..]| - 1]).value;
        ChildUpdate(es, i, p[0], c, p[0]);
    }
  }

  lemma InsertFindsNew(es: seq<Entry>, e: Entry)
    requires Find(es, e.name).None?
    ensures Find(Insert(es, e), e.name).Some?
    ensures Insert(es, e)[Find(Insert(es, e), e.name).value] == e
  {
    ChildInsert(es, e, e.name);
    assert e in Insert(es, e);
  }

  /** A file can be written at the end of a fresh directory chain. */
  lemma {:induction false} ChainAccepts(p: seq<string>, name: string, content: string)
    ensures WriteAt(Chain(p), p + [name], content).Ok?
    decreases |p|
  {
    if |p| > 0 {
      assert (p + [name])[0] == p[0];
      assert (p + [name])[1..] == p[1..] + [name];
      ChainAccepts(p[1..], name, content);
    } else {
      assert p + [name] == [name];
    }
  }

  lemma {:induction false} ChainValid(p: seq<string>)
    requires ValidPath(p)
    ensures Valid(Chain(p))
    decreases |p|
  {
    if |p| > 0 {
      ChainValid(p[1..]);
    }
  }

  /** Creating directories keeps the tree well formed. */
  lemma {:induction false} MkdirAllValid(n: Node, p: seq<string>)
    requires Valid(n) && ValidPath(p) && MkdirAll(n, p).Ok?
    ensures Valid(MkdirAll(n, p).value)
    decreases |p|
  {
    if |p| > 0 {
      var es := n.entries;
      match Find(es, p[0])
      case None =>
        var e := Entry(p[0], Chain(p[1..]));
        ChainValid(p[1..]);
        InsertSorted(es, e);
        var es' := Insert(es, e);
        forall k | 0 <= k < |es'|
          ensures ValidName(es'[k].name) && Valid(es'[k].node)
        {
          assert es'[k] in es';
        }
      case Some(i) =>
        MkdirAllValid(es[i].node, p[1..]);
    }
  }

  /** A path that resolves in a well-formed tree is made of valid names. */
  lemma {:induction false} LookupNamesValid(n: Node, p: seq<string>)
    requires Valid(n) && Lookup(n, p).Ok?
    ensures ValidPath(p)
    decreases |p|
  {
    if |p| > 0 {
      var i := Find(n.entries, p[0]).value;
      LookupNamesValid(n.entries[i].node, p[1..]);
      forall k | 0 <= k < |p| ensures ValidName(p[k]) {
        if k > 0 {
          assert p[k] == p[1..][k - 1];
        }
      }
    }
  }

  /** Everything inside a well-formed tree is well formed. */
  lemma {:induction false} LookupValid(n: Node, p: seq<string>)
    requires Valid(n) && Lookup(n, p).Ok?
    ensures Valid(Lookup(n, p).value)
    decreases |p|
  {
    if |p| > 0 {
      var i := Find(n.entries, p[0]).value;
      LookupValid(n.entries[i].node, p[1..]);
    }
  }

  /** Some prefix of `p`, `p` itself included, resolves to a regular file. */
  predicate FileOnTheWay(n: Node, p: seq<string>) {
    exists k :: 0 <= k <= |p| && Lookup(n, p[..k]).Ok? && Lookup(n, p[..k]).value.File?
  }

  /** `MkdirAll` fails exactly when a prefix of the path is a regular file,
      and then the prefix it reports is one. */
  lemma {:induction false} MkdirAllFailsIff(n: Node, p: seq<string>)
    ensures MkdirAll(n, p).Err? <==> FileOnTheWay(n, p)
    ensures MkdirAll(n, p).Err? ==>
              && MkdirAll(n, p).error <= |p|
              && Lookup(n, p[..MkdirAll(n, p).error]).Ok?
              && Lookup(n, p[..MkdirAll(n, p).error]).value.File?
    decreases |p|
  {
    assert p[..0] == [];
    if n.Dir? && |p| > 0 {
      var es := n.entries;
      match Find(es, p[0])
      case None =>
        forall k | 0 < k <= |p| ensures Lookup(n, p[..k]).Err? {
          assert p[..k][0] == p[0];
        }
      case Some(i) =>
        var c := es[i].node;
        MkdirAllFailsIff(c, p[1..]);
        forall k | 0 < k <= |p| ensures Lookup(n, p[..k]) == Lookup(c, p[1..][..k - 1]) {
          assert p[..k][0] == p[0] && p[..k][1..] == p[1..][..k - 1];
        }
        if MkdirAll(c, p[1..]).Err? {
          var j := MkdirAll(c, p[1..]).error;
          assert Lookup(n, p[..j + 1]) == Lookup(c, p[1..][..j]);
        } else {
          forall k | 0 <= k <= |p| && Lookup(n, p[..k]).Ok? ensures !Lookup(n, p[..k]).value.File? {
            if k > 0 {
              assert Lookup(n, p[..k]) == Lookup(c, p[1..][..k - 1]);
            }
          }
        }
    }
  }

  /** After a successful `MkdirAll` the path names a directory. */
  lemma {:induction false} MkdirAllMakesDir(n: Node, p: seq<string>)
    requires MkdirAll(n, p).Ok?
    ensures Lookup(MkdirAll(n, p).value, p).Ok? && Lookup(MkdirAll(n, p).value, p).value.Dir?
    decreases |p|
  {
    if |p| > 0 {
      var es := n.entries;
      match Find(es, p[0])
      case None =>
        ChildInsert(es, Entry(p[0], Chain(p[1..])), p[0]);
        ChainResolves(p[1..]);
      case Some(i) =>
        var c := MkdirAll(es[i].node, p[1..]).value;
        ChildUpdate(es, i, p[0], c, p[0]);
        MkdirAllMakesDir(es[i].node, p[1..]);
    }
  }

  /** A fresh chain of directories resolves along its own names to an empty
      directory. */
  lemma {:induction false} ChainResolves(p: seq<string>)
    ensures Lookup(Chain(p), p) == Ok(Dir([]))
    decreases |p|
  {
    if |p| > 0 {
      assert Find(Chain(p).entries, p[0]) == Some(0);
      ChainResolves(p[1..]);
    }
  }

  /** `os.MkdirAll` on a tree: afterwards `dir` is a directory and no file
      has changed; it fails, with the prefix of `dir` that is a regular file
      in the error, exactly when there is such a prefix. */
  function MakeDirs(t: Tree, dir: seq<string>): (r: Result<Tree, PathError>)
    requires ValidPath(dir)
    ensures r.Ok? ==> forall q :: FileAt(r.value, q) == FileAt(t, q)
    ensures r.Ok? ==> Lookup(r.value, dir).Ok? && Lookup(r.value, dir).value.Dir?
    ensures r.Err? <==> FileOnTheWay(t, dir)
    ensures r.Err? ==> r.error.op == "mkdir" && r.error.errno == NotDir
  {
    MkdirAllFailsIff(t, dir);
    match MkdirAll(t, dir)
    case Err(k) => Err(PathError("mkdir", Join(dir[..k]), NotDir))
    case Ok(n) =>
      MkdirAllValid(t, dir);
      MkdirAllMakesDir(t, dir);
      forall q ensures FileAt(n, q) == FileAt(t, q) {
        MkdirAllFiles(t, dir, q);
      }
      Ok(n)
  }

  /** `os.WriteFile` on a tree: creates or truncates the regular file at
      `path`; every other path keeps the file it held. */
  function WriteFile(t: Tree, path: string, content: string): (r: Result<Tree, PathError>)
    ensures r.Ok? ==> FileAt(r.value, Components(path)) == Some(content)
    ensures r.Ok? ==> forall q :: q != Components(path) ==> FileAt(r.value, q) == FileAt(t, q)
    ensures path == "" ==> r.Err?
  {
    var p := Components(path);
    if path == "" then Err(PathError("open", path, NotExist))
    else if |p| == 0 then Err(PathError("open", path, IsDir))
    else match WriteAt(t, p, content)
      case Err(e) => Err(PathError("open", path, e))
      case Ok(n) =>
        WriteAtValid(t, p, content);
        forall q ensures FileAt(n, q) == if q == p then Some(content) else FileAt(t, q) {
          WriteAtFiles(t, p, content, q);
        }
        Ok(n)
  }

  /** Writing an existing regular file always succeeds. */
  lemma WriteExisting(t: Tree, path: string, content: string)
    requires path != "" && FileAt(t, Components(path)).Some?
    ensures WriteFile(t, path, content).Ok?
  {
    WriteAtExisting(t, Components(path), content);
  }

  lemma {:induction false} WriteAtExisting(n: Node, p: seq<string>, content: string)
    requires n.Dir? && FileAt(n, p).Some?
    ensures |p| > 0 && WriteAt(n, p, content).Ok?
    decreases |p|
  {
    var c := Child(n.entries, p[0]).value;
    if |p| > 1 {
      var i := Find(n.entries, p[0]).value;
      assert Lookup(n, p) == Lookup(c, p[1..]);
      assert c.Dir?;
      WriteAtExisting(n.entries[i].node, p[1..], content);
    } else {
      assert Lookup(n, p) == Lookup(c, []);
    }
  }

  // ---------------------------------------------------------------------
  // Walking a directory tree

  /** One visited path, relative to the walked directory. */
  datatype Listed = Listed(path: seq<string>, isDir: bool)

  /** Prefixes every listed path with `name`. */
  function Under(name: string, ls: seq<Listed>): (r: seq<Listed>)
    ensures |r| == |ls|
    ensures forall k :: 0 <= k < |ls| ==> r[k] == Listed([name] + ls[k].path, ls[k].isDir)
  {
    seq(|ls|, k requires 0 <= k < |ls| => Listed([name] + ls[k].path, ls[k].isDir))
  }

  /** `filepath.Walk` from entry `i` of directory `n` on: each entry, then,
      for a directory, everything below it, in entry order. */
  function WalkFrom(n: Node, i: nat): seq<Listed>
    requires n.Dir? && i <= |n.entries|
    decreases n, |n.entries| - i
  {
    if i == |n.entries| then []
    else
      var e := n.entries[i];
      var below := if e.node.Dir? then Under(e.name, WalkFrom(e.node, 0)) else [];
      [Listed([e.name], e.node.Dir?)] + below + WalkFrom(n, i + 1)
  }

  /** Everything strictly below `n`; a regular file has nothing below it. */
  function Walk(n: Node): seq<Listed> {
    if n.Dir? then WalkFrom(n, 0) else []
  }

  /** `l` names a non-root path below `n` and says correctly whether it is a
      directory. */
  predicate Found(n: Node, l: Listed) {
    |l.path| > 0 && Lookup(n, l.path).Ok? && Lookup(n, l.path).value.Dir? == l.isDir
  }

  /** Every walked path exists, with the kind the walk reports. */
  lemma {:induction false} WalkSound(n: Node, i: nat)
    requires Valid(n) && n.Dir? && i <= |n.entries|
    ensures forall l :: l in WalkFrom(n, i) ==> Found(n, l)
    decreases n, |n.entries| - i
  {
    if i < |n.entries| {
      var es := n.entries;
      var e := es[i];
      FindSorted(es, i);
      WalkSound(n, i + 1);
      if e.node.Dir? {
        WalkSound(e.node, 0);
        var inner := WalkFrom(e.node, 0);
        forall k | 0 <= k < |inner|
          ensures Found(n, Under(e.name, inner)[k])
        {
          assert inner[k] in inner;
          var path := [e.name] + inner[k].path;
          assert path[0] == e.name && path[1..] == inner[k].path;
        }
      }
      forall l | l in WalkFrom(n, i)
        ensures Found(n, l)
      {
        if e.node.Dir? && l in Under(e.name, WalkFrom(e.node, 0)) {
          var k :| 0 <= k < |Under(e.name, WalkFrom(e.node, 0))| && Under(e.name, WalkFrom(e.node, 0))[k] == l;
        }
      }
    }
  }

  /** A later starting entry walks a tail of the same walk. */
  lemma {:induction false} WalkSuffix(n: Node, i: nat, j: nat)
    requires n.Dir? && i <= j <= |n.entries|
    ensures forall l :: l in WalkFrom(n, j) ==> l in WalkFrom(n, i)
    decreases j - i
  {
    if i < j {
      WalkSuffix(n, i + 1, j);
    }
  }

  /** Every path below a directory is walked, with its kind. */
  lemma {:induction false} WalkComplete(n: Node, q: seq<string>)
    requires Valid(n) && n.Dir? && |q| > 0 && Lookup(n, q).Ok?
    ensures Listed(q, Lookup(n, q).value.Dir?) in Walk(n)
    decreases |q|
  {
    var es := n.entries;
    var j := Find(es, q[0]).value;
    var e := es[j];
    WalkSuffix(n, 0, j);
    var target := Listed(q, Lookup(n, q).value.Dir?);
    if |q| == 1 {
      assert target == Listed([e.name], e.node.Dir?);
    } else {
      assert e.node.Dir?;
      WalkComplete(e.node, q[1..]);
      var inner := WalkFrom(e.node, 0);
      var k :| 0 <= k < |inner| && inner[k] == Listed(q[1..], Lookup(n, q).value.Dir?);
      assert q == [e.name] + q[1..];
      assert Under(e.name, inner)[k] == target;
    }
    assert target in WalkFrom(n, j);
  }

  // ---------------------------------------------------------------------
  // Walk order

  /** Strict order on paths: component by component in name order, a path
      before every path that extends it. */
  predicate PathBelow(p: seq<string>, q: seq<string>)
    decreases |p|
  {
    |q| > 0 && (|p| == 0 || Below(p[0], q[0]) || (p[0] == q[0] && PathBelow(p[1..], q[1..])))
  }

  /** Every listed path comes strictly before every later one, so the
      listing is ordered and holds no path twice. */
  predicate Increasing(ls: seq<Listed>) {
    forall i, j :: 0 <= i < j < |ls| ==> PathBelow(ls[i].path, ls[j].path)
  }

  lemma IncreasingConcat(a: seq<Listed>, b: seq<Listed>)
    requires Increasing(a) && Increasing(b)
    requires forall i, j :: 0 <= i < |a| && 0 <= j < |b| ==> PathBelow(a[i].path, b[j].path)
    ensures Increasing(a + b)
  {
  }

  /** Prefixing the same name keeps the order. */
  lemma UnderIncreasing(name: string, ls: seq<Listed>)
    requires Increasing(ls)
    ensures Increasing(Under(name, ls))
  {
    var u := Under(name, ls);
    forall i, j | 0 <= i < j < |u|
      ensures PathBelow(u[i].path, u[j].path)
    {
      var p, q := u[i].path, u[j].path;
      assert p[0] == q[0] == name;
      assert p[1..] == ls[i].path && q[1..] == ls[j].path;
    }
  }

  /** The walk from entry `j` on only lists paths whose first component is
      the name of one of those entries, so it is above any `x` they all are. */
  lemma {:induction false} WalkFromAbove(n: Node, j: nat, x: string)
    requires n.Dir? && j <= |n.entries|
    requires forall k :: j <= k < |n.entries| ==> Below(x, n.entries[k].name)
    ensures forall l :: l in WalkFrom(n, j) ==> |l.path| > 0 && Below(x, l.path[0])
    decreases |n.entries| - j
  {
    if j < |n.entries| {
      var e := n.entries[j];
      WalkFromAbove(n, j + 1, x);
      if e.node.Dir? {
        var u := Under(e.name, WalkFrom(e.node, 0));
        assert forall k :: 0 <= k < |u| ==> u[k].path[0] == e.name;
      }
    }
  }

  /** `filepath.Walk` visits paths in lexical order: the walk is strictly
      increasing in path order, a directory before its contents. */
  lemma {:induction false} WalkFromIncreasing(n: Node, i: nat)
    requires Valid(n) && n.Dir? && i <= |n.entries|
    ensures Increasing(WalkFrom(n, i))
    decreases n, |n.entries| - i
  {
    if i < |n.entries| {
      var e := n.entries[i];
      var head := [Listed([e.name], e.node.Dir?)];
      var below := if e.node.Dir? then Under(e.name, WalkFrom(e.node, 0)) else [];
      var tail := WalkFrom(n, i + 1);
      WalkFromIncreasing(n, i + 1);
      if e.node.Dir? {
        WalkFromIncreasing(e.node, 0);
        UnderIncreasing(e.name, WalkFrom(e.node, 0));
        WalkSound(e.node, 0);
        var inner := WalkFrom(e.node, 0);
        forall k | 0 <= k < |below|
          ensures PathBelow(head[0].path, below[k].path)
        {
          assert inner[k] in inner;
          assert below[k].path[0] == e.name && below[k].path[1..] == inner[k].path;
        }
      }
      IncreasingConcat(head, below);
      WalkFromAbove(n, i + 1, e.name);
      var front := head + below;
      assert forall k :: 0 <= k < |front| ==> front[k].path[0] == e.name && |front[k].path| > 0;
      forall a, b | 0 <= a < |front| && 0 <= b < |tail|
        ensures PathBelow(front[a].path, tail[b].path)
      {
        assert tail[b] in tail;
      }
      IncreasingConcat(front, tail);
    }
  }

  /** The whole walk is in path order. */
  lemma WalkIncreasing(n: Node)
    requires Valid(n)
    ensures Increasing(Walk(n))
  {
    if n.Dir? {
      WalkFromIncreasing(n, 0);
    }
  }

  lemma {:induction false} PathBelowIrreflexive(p: seq<string>)
    ensures !PathBelow(p, p)
    decreases |p|
  {
    if |p| > 0 {
      BelowIrreflexive(p[0]);
      PathBelowIrreflexive(p[1..]);
    }
  }

  /** The walk lists no path twice. */
  lemma WalkDistinct(n: Node)
    requires Valid(n)
    ensures forall i, j :: 0 <= i < j < |Walk(n)| ==> Walk(n)[i].path != Walk(n)[j].path
  {
    WalkIncreasing(n);
    forall i, j | 0 <= i < j < |Walk(n)|
      ensures Walk(n)[i].path != Walk(n)[j].path
    {
      PathBelowIrreflexive(Walk(n)[i].path);
    }
  }
}
