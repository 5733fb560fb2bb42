/**
 * The host filesystem as the file browser sees it, symbolic links left
 * out: a map from normalised absolute paths to nodes, the kernel's walk of
 * a path, stat(), os.mkdir(), pathlib's mkdir(parents=True, exist_ok=True)
 * and open(path, "wb"), plus a listing of one directory.
 */
module Posix {
  import opened Wrappers
  import opened Paths

  newtype byte = x: int | 0 <= x < 256

  /** What stat() sees at a path. Directory sizes and all times are opaque values. */
  datatype Node = File(data: seq<byte>, mtime: int) | Dir(size: nat, mtime: int)

  /** st_size */
  function Size(n: Node): nat
  {
    match n
    case File(data, _) => |data|
    case Dir(size, _) => size
  }

  type Entries = map<Path, Node>

  /** What the OS gives a new entry: the clock, and a new directory's st_size. */
  datatype Stamp = Stamp(now: int, dirSize: nat)

  /**
   * A directory tree: "/" is a directory, every entry is named by a
   * normalised path, and every entry other than "/" sits in a directory.
   */
  ghost predicate Tree(fs: Entries)
  {
    && [] in fs && fs[[]].Dir?
    && (forall p :: p in fs ==> Normal(p))
    && (forall p {:trigger Parent(p)} :: p in fs && p != [] ==> Parent(p) in fs && fs[Parent(p)].Dir?)
  }

  datatype Errno = ENOENT | ENOTDIR | EEXIST | EISDIR

  datatype Lookup = Found(at: Path) | Failed(errno: Errno)

  /**
   * The kernel's walk of `segs` from the directory `cur`: "" and "." stay,
   * ".." goes up (and stays at "/"), a name must exist, and must be a
   * directory when more segments follow it. Where the walk succeeds it ends
   * where lexical resolution does.
   */
  function Walk(fs: Entries, cur: Path, segs: seq<string>): (r: Lookup)
    ensures r.Found? ==> r.at == ResolveFrom(cur, segs)
    decreases |segs|
  {
    if segs == [] then Found(cur)
    else if segs[0] == "" || segs[0] == "." then Walk(fs, cur, segs[1..])
    else if segs[0] == ".." then Walk(fs, Parent(cur), segs[1..])
    else
      var next := cur + [segs[0]];
      if next !in fs then Failed(ENOENT)
      else if |segs| > 1 && !fs[next].Dir? then Failed(ENOTDIR)
      else Walk(fs, next, segs[1..])
  }

  /** stat() of the absolute path with segments `u`; exists() is `Stat(..).Some?`. */
  function Stat(fs: Entries, u: seq<string>): (r: Option<Node>)
    ensures r.Some? ==> Resolve(u) in fs && r.value == fs[Resolve(u)]
  {
    match Walk(fs, [], u)
    case Found(p) => if p in fs then Some(fs[p]) else None
    case Failed(_) => None
  }

  /** is_file() */
  predicate IsFile(fs: Entries, u: seq<string>)
    ensures IsFile(fs, u) ==> Resolve(u) in fs && fs[Resolve(u)].File?
  {
    Stat(fs, u).Some? && Stat(fs, u).value.File?
  }

  /** is_dir() */
  predicate IsDir(fs: Entries, u: seq<string>)
    ensures IsDir(fs, u) ==> Resolve(u) in fs && fs[Resolve(u)].Dir?
    ensures !(IsDir(fs, u) && IsFile(fs, u))
  {
    Stat(fs, u).Some? && Stat(fs, u).value.Dir?
  }

  /**
   * Where a new entry for `u` goes: the directory its parent segments walk
   * to, and its last segment; os.mkdir and open(…, O_CREAT) look it up so.
   */
  datatype Slot = Slot(dir: Path, name: string) | NoSlot(errno: Errno)

  function CreationSlot(fs: Entries, u: seq<string>): (r: Slot)
    requires u != []
    ensures r.Slot? ==> r.dir == Resolve(Parent(u)) && r.dir in fs && fs[r.dir].Dir? && r.name == Name(u)
  {
    match Walk(fs, [], Parent(u))
    case Failed(e) => NoSlot(e)
    case Found(d) =>
      if d !in fs then NoSlot(ENOENT)
      else if !fs[d].Dir? then NoSlot(ENOTDIR)
      else Slot(d, Name(u))
  }

  /**
   * The result of a call that changes the filesystem or raises OSError; an
   * error still carries the filesystem, since what was done before it stays.
   */
  datatype Outcome = Done(fs: Entries) | Raised(errno: Errno, fs: Entries)

  /** os.mkdir(u): one new directory, or an error. */
  function OsMkdir(fs: Entries, u: seq<string>, st: Stamp): (r: Outcome)
    ensures r.Done? ==> Resolve(u) !in fs && r.fs == fs[Resolve(u) := Dir(st.dirSize, st.now)]
    ensures r.Raised? ==> r.fs == fs
  {
    if u == [] then Raised(EEXIST, fs)
    else
      match CreationSlot(fs, u)
      case NoSlot(e) => Raised(e, fs)
      case Slot(d, name) =>
        if name == "" || name == "." || name == ".." then Raised(EEXIST, fs)
        else if d + [name] in fs then Raised(EEXIST, fs)
        else
          ResolveLast(u);
          Done(fs[d + [name] := Dir(st.dirSize, st.now)])
  }

  /**
   * pathlib's `Path(u).mkdir(parents=True, exist_ok=True)`: os.mkdir; on
   * ENOENT make the lexical parent first and try again without parents; on
   * any other error succeed only if `u` already is a directory. Whether it
   * succeeds or raises, it only ever adds directories, each at the
   * resolution of some prefix of `u`; nothing it made is undone when a
   * later attempt raises.
   */
  function MkdirParents(fs: Entries, u: seq<string>, st: Stamp): (r: Outcome)
    ensures Grows(fs, r.fs, st)
    ensures forall p :: p in r.fs && p !in fs ==> exists k :: 0 <= k <= |u| && p == Resolve(u[..k])
    decreases |u|
  {
    var o := OsMkdir(fs, u, st);
    if o.Done? then
      assert u[..|u|] == u;
      o
    else if o.errno == ENOENT then
      if Parent(u) == u then o
      else
        var m := MkdirParents(fs, Parent(u), st);
        PrefixOfParent(u);
        if m.Raised? then m
        else
          var r := MkdirExistOk(m.fs, u, st);
          assert u[..|u|] == u;
          r
    else if IsDir(fs, u) then Done(fs)
    else o
  }

  /** The retry in MkdirParents: `mkdir(parents=False, exist_ok=True)`; ENOENT propagates. */
  function MkdirExistOk(fs: Entries, u: seq<string>, st: Stamp): (r: Outcome)
    ensures r.Done? ==> r.fs == fs || r.fs == fs[Resolve(u) := Dir(st.dirSize, st.now)]
    ensures r.Raised? ==> r.fs == fs
    ensures Grows(fs, r.fs, st)
  {
    var o := OsMkdir(fs, u, st);
    if o.Done? || o.errno == ENOENT then o
    else if IsDir(fs, u) then Done(fs)
    else o
  }

  /** `fs'` keeps every entry of `fs` and adds only new directories. */
  ghost predicate Grows(fs: Entries, fs': Entries, st: Stamp)
  {
    && (forall p :: p in fs ==> p in fs' && fs'[p] == fs[p])
    && (forall p :: p in fs' && p !in fs ==> fs'[p] == Dir(st.dirSize, st.now))
  }

  /**
   * open(u, "wb") followed by writing `data`: creates or truncates a file;
   * a directory at `u` is EISDIR.
   */
  function OpenForWrite(fs: Entries, u: seq<string>, data: seq<byte>, st: Stamp): (r: Outcome)
    ensures r.Done? ==> !(Resolve(u) in fs && fs[Resolve(u)].Dir?)
    ensures r.Done? ==> r.fs == fs[Resolve(u) := File(data, st.now)]
    ensures r.Raised? ==> r.fs == fs
  {
    if u == [] then Raised(EISDIR, fs)
    else
      match CreationSlot(fs, u)
      case NoSlot(e) => Raised(e, fs)
      case Slot(d, name) =>
        if name == "" || name == "." || name == ".." then Raised(EISDIR, fs)
        else if d + [name] in fs && fs[d + [name]].Dir? then Raised(EISDIR, fs)
        else
          ResolveLast(u);
          Done(fs[d + [name] := File(data, st.now)])
  }

  /** One row of a directory listing: name, is_dir(), st_size, st_mtime. */
  datatype Entry = Entry(name: string, isDir: bool, size: nat, mtime: int)

  function EntryOf(fs: Entries, c: Path): Entry
    requires c in fs
  {
    Entry(Name(c), fs[c].Dir?, Size(fs[c]), fs[c].mtime)
  }

  /** The direct children of the directory `d`. */
  function Children(fs: Entries, d: Path): set<Path>
  {
    set c | c in fs && c != [] && Parent(c) == d
  }

  /** The rows a listing of `d` must hold, one per direct child. */
  ghost function Listed(fs: Entries, d: Path): set<Entry>
  {
    set c | c in Children(fs, d) :: EntryOf(fs, c)
  }

  // ----------------------------------------------------------------------
  // The filesystem as mutable state.

  class FileSystem {
    var entries: Entries

    ghost predicate Valid()
      reads this
    {
      Tree(entries)
    }

    constructor (init: Entries)
      requires Tree(init)
      ensures Valid() && entries == init
    {
      entries := init;
    }

    /**
     * `iterdir()` over the directory `d`, one row per child, in whatever
     * order the directory yields them.
     */
    method DirItems(d: Path) returns (items: seq<Entry>)
      ensures (set e | e in items) == Listed(entries, d)
      ensures forall i, j :: 0 <= i < j < |items| ==> items[i].name != items[j].name
    {
      var todo := Children(entries, d);
      ghost var done: set<Path> := {};
      items := [];
      while todo != {}
        invariant todo !! done && todo + done == Children(entries, d)
        invariant (set e | e in items) == (set c | c in done :: EntryOf(entries, c))
        invariant forall i :: 0 <= i < |items| ==> d + [items[i].name] in done
        invariant forall i, j :: 0 <= i < j < |items| ==> items[i].name != items[j].name
        decreases |todo|
      {
        var c :| c in todo;
        var e := EntryOf(entries, c);
        DirItemsStep(entries, d, items, done, todo, c);
        items := items + [e];
        todo := todo - {c};
        done := done + {c};
      }
    }

    /**
     * `Path(u).mkdir(parents=True, exist_ok=True)`. On an error the
     * directories it made before failing stay.
     */
    method MakeDirs(u: seq<string>, st: Stamp) returns (err: Option<Errno>)
      requires Valid() && NoSlash(u)
      modifies this
      ensures Valid()
      ensures entries == MkdirParents(old(entries), u, st).fs
      ensures Grows(old(entries), entries, st)
      ensures match MkdirParents(old(entries), u, st)
              case Done(_) => err == None
              case Raised(e, _) => err == Some(e)
    {
      TreeMkdirParents(entries, u, st);
      var o := MkdirParents(entries, u, st);
      entries := o.fs;
      match o
      case Done(_) =>
        err := None;
      case Raised(e, _) =>
        err := Some(e);
    }

    /** `file.save(u)`: open(u, "wb") and copy the upload's bytes into it. */
    method Save(u: seq<string>, data: seq<byte>, st: Stamp) returns (err: Option<Errno>)
      requires Valid() && NoSlash(u)
      modifies this
      ensures Valid()
      ensures match OpenForWrite(old(entries), u, data, st)
              case Done(fs') => err == None && entries == fs'
              case Raised(e, _) => err == Some(e) && entries == old(entries)
    {
      TreeOpenForWrite(entries, u, data, st);
      match OpenForWrite(entries, u, data, st)
      case Done(fs') =>
        entries := fs';
        err := None;
      case Raised(e, _) =>
        err := Some(e);
    }
  }

  // ----------------------------------------------------------------------
  // Lemmas

  /** One more row for one more child keeps the rows those of the children seen. */
  lemma ListedStep(fs: Entries, items: seq<Entry>, done: set<Path>, c: Path)
    requires c in fs && forall x :: x in done ==> x in fs
    requires (set e | e in items) == (set x | x in done :: EntryOf(fs, x))
    ensures (set e | e in items + [EntryOf(fs, c)]) == (set x | x in done + {c} :: EntryOf(fs, x))
  {
    assert (set e | e in items + [EntryOf(fs, c)]) == (set e | e in items) + {EntryOf(fs, c)};
    assert (set x | x in done + {c} :: EntryOf(fs, x)) == (set x | x in done :: EntryOf(fs, x)) + {EntryOf(fs, c)};
  }

  /** One more child listed keeps the listing loop's invariants. */
  lemma DirItemsStep(fs: Entries, d: Path, items: seq<Entry>, done: set<Path>, todo: set<Path>, c: Path)
    requires c in todo && todo !! done && todo + done == Children(fs, d)
    requires (set e | e in items) == (set x | x in done :: EntryOf(fs, x))
    requires forall i :: 0 <= i < |items| ==> d + [items[i].name] in done
    requires forall i, j :: 0 <= i < j < |items| ==> items[i].name != items[j].name
    ensures var items', done' := items + [EntryOf(fs, c)], done + {c};
      && todo - {c} !! done' && (todo - {c}) + done' == Children(fs, d)
      && (set e | e in items') == (set x | x in done' :: EntryOf(fs, x))
      && (forall i :: 0 <= i < |items'| ==> d + [items'[i].name] in done')
      && (forall i, j :: 0 <= i < j < |items'| ==> items'[i].name != items'[j].name)
  {
    assert c in fs && c == d + [Name(c)];
    ListedStep(fs, items, done, c);
    FreshName(items, done, d, c);
    var items' := items + [EntryOf(fs, c)];
    assert forall i :: 0 <= i < |items| ==> items'[i] == items[i];
  }

  /** A child not yet listed has a name no listed row has. */
  lemma FreshName(items: seq<Entry>, done: set<Path>, d: Path, c: Path)
    requires forall i :: 0 <= i < |items| ==> d + [items[i].name] in done
    requires c !in done && c == d + [Name(c)]
    ensures forall i :: 0 <= i < |items| ==> items[i].name != Name(c)
  {
  }

  /** The last segment of a path resolves onto the resolution of its parent. */
  lemma ResolveLast(u: seq<string>)
    requires u != [] && Name(u) != "" && Name(u) != "." && Name(u) != ".."
    ensures Resolve(u) == Resolve(Parent(u)) + [Name(u)]
  {
    assert u == Parent(u) + [Name(u)];
    ResolveFromAppend([], Parent(u), [Name(u)]);
    var d := ResolveFrom([], Parent(u));
    assert ResolveFrom(d, [Name(u)]) == ResolveFrom(d + [Name(u)], []);
  }

  /** A prefix of a path's parent is a prefix of the path. */
  lemma PrefixOfParent(u: seq<string>)
    requires u != []
    ensures forall k :: 0 <= k <= |Parent(u)| ==> Parent(u)[..k] == u[..k]
  {
  }

  /** Every prefix of an entry is an entry, and every strict prefix a directory. */
  lemma {:induction false} PrefixClosed(fs: Entries, p: Path, k: nat)
    requires Tree(fs) && p in fs && k <= |p|
    ensures p[..k] in fs
    ensures k < |p| ==> fs[p[..k]].Dir?
    decreases |p|
  {
    if k < |p| {
      var q := Parent(p);
      assert q == p[..|p| - 1];
      assert q[..k] == p[..k];
      if k < |q| {
        PrefixClosed(fs, q, k);
      } else {
        assert q[..k] == q;
      }
    } else {
      assert p[..k] == p;
    }
  }

  /**
   * The walk down a normalised path whose strict prefixes are not files
   * either reaches it or stops at the first missing entry.
   */
  lemma {:induction false} WalkDown(fs: Entries, p: Path, k: nat)
    requires Tree(fs) && Normal(p) && k <= |p| && p[..k] in fs
    requires forall j :: k < j < |p| && p[..j] in fs ==> fs[p[..j]].Dir?
    ensures Walk(fs, p[..k], p[k..]) == if p in fs then Found(p) else Failed(ENOENT)
    decreases |p| - k
  {
    if k == |p| {
      assert p[..k] == p;
      assert p[k..] == [];
    } else {
      var segs := p[k..];
      assert segs[0] == p[k] && IsName(p[k]);
      var next := p[..k] + [p[k]];
      assert next == p[..k + 1];
      assert segs[1..] == p[k + 1..];
      if next !in fs {
        if p in fs {
          PrefixClosed(fs, p, k + 1);
        }
      } else if k + 1 < |p| {
        WalkDown(fs, p, k + 1);
      } else {
        assert next == p;
        assert segs[1..] == [];
      }
    }
  }

  /** On a tree, stat() of a normalised path is a lookup in the map. */
  lemma StatNormal(fs: Entries, p: Path)
    requires Tree(fs) && Normal(p)
    ensures Stat(fs, p) == if p in fs then Some(fs[p]) else None
  {
    if p in fs {
      forall j | 0 < j < |p| && p[..j] in fs
        ensures fs[p[..j]].Dir?
      {
        PrefixClosed(fs, p, j);
      }
      WalkDown(fs, p, 0);
      assert p[..0] == [] && p[0..] == p;
    }
  }

  /** os.mkdir keeps the tree shape. */
  lemma TreeOsMkdir(fs: Entries, u: seq<string>, st: Stamp)
    requires Tree(fs) && NoSlash(u)
    ensures OsMkdir(fs, u, st).Done? ==> Tree(OsMkdir(fs, u, st).fs)
  {
    if OsMkdir(fs, u, st).Done? {
      var s := CreationSlot(fs, u);
      var q := s.dir + [s.name];
      assert Parent(q) == s.dir;
      assert '/' !in u[|u| - 1];
      assert Normal(s.dir);
      assert Normal(q);
    }
  }

  /** A new directory under an existing one keeps the tree shape. */
  lemma TreeAddDir(fs: Entries, q: Path, st: Stamp)
    requires Tree(fs) && Normal(q) && q != [] && q !in fs
    requires Parent(q) in fs && fs[Parent(q)].Dir?
    ensures Tree(fs[q := Dir(st.dirSize, st.now)])
  {
    var fs' := fs[q := Dir(st.dirSize, st.now)];
    forall p | p in fs' && p != []
      ensures Parent(p) in fs' && fs'[Parent(p)].Dir?
    {
      if p != q {
        assert Parent(p) in fs && fs[Parent(p)].Dir?;
      }
    }
  }

  /** open(…, "wb") keeps the tree shape. */
  lemma TreeOpenForWrite(fs: Entries, u: seq<string>, data: seq<byte>, st: Stamp)
    requires Tree(fs) && NoSlash(u)
    ensures OpenForWrite(fs, u, data, st).Done? ==> Tree(OpenForWrite(fs, u, data, st).fs)
  {
    if OpenForWrite(fs, u, data, st).Done? {
      var s := CreationSlot(fs, u);
      var q := s.dir + [s.name];
      var fs' := OpenForWrite(fs, u, data, st).fs;
      assert Parent(q) == s.dir;
      assert '/' !in u[|u| - 1];
      assert Normal(s.dir);
      assert Normal(q);
      forall p | p in fs' && p != []
        ensures Parent(p) in fs' && fs'[Parent(p)].Dir?
      {
        if p != q {
          assert Parent(p) in fs && fs[Parent(p)].Dir?;
          assert Parent(p) != q;
        }
      }
    }
  }

  /** mkdir(parents=True, exist_ok=True) keeps the tree shape, also when it raises. */
  lemma {:induction false} TreeMkdirParents(fs: Entries, u: seq<string>, st: Stamp)
    requires Tree(fs) && NoSlash(u)
    ensures Tree(MkdirParents(fs, u, st).fs)
    decreases |u|
  {
    TreeOsMkdir(fs, u, st);
    var o := OsMkdir(fs, u, st);
    if o.Raised? && o.errno == ENOENT && Parent(u) != u {
      assert NoSlash(Parent(u));
      TreeMkdirParents(fs, Parent(u), st);
      var m := MkdirParents(fs, Parent(u), st);
      if m.Done? {
        TreeOsMkdir(m.fs, u, st);
      }
    }
  }

  /** Every prefix of a normalised path is in `fs` as a directory. */
  ghost predicate DirsAlong(fs: Entries, q: Path)
  {
    forall k :: 0 <= k <= |q| ==> q[..k] in fs && fs[q[..k]].Dir?
  }

  /** No prefix of `q` (nor `q` itself) is a file in `fs`. */
  ghost predicate NoFileAlong(fs: Entries, q: Path)
  {
    forall k :: 0 <= k <= |q| && q[..k] in fs ==> fs[q[..k]].Dir?
  }

  /**
   * For a normalised path none of whose prefixes is a file, mkdir with
   * parents succeeds, after which the path and all its prefixes are
   * directories, and the only entries it added are among those prefixes.
   */
  lemma {:induction false} MkdirNormal(fs: Entries, q: Path, st: Stamp)
    requires Tree(fs) && Normal(q) && NoFileAlong(fs, q)
    ensures MkdirParents(fs, q, st).Done?
    ensures var fs' := MkdirParents(fs, q, st).fs;
      && Tree(fs')
      && DirsAlong(fs', q)
      && (forall p :: p in fs' && p !in fs ==> IsRelativeTo(q, p))
    decreases |q|
  {
    if q == [] {
      StatNormal(fs, q);
      assert q[..0] == q;
    } else {
      var P := Parent(q);
      assert P == q[..|q| - 1];
      PrefixOfParent(q);
      assert NoFileAlong(fs, P) by {
        forall k | 0 <= k <= |P| && P[..k] in fs
          ensures fs[P[..k]].Dir?
        {
          assert P[..k] == q[..k];
        }
      }
      if P in fs {
        MkdirParentPresent(fs, q, st);
      } else {
        MkdirNormal(fs, P, st);
        MkdirParentMissing(fs, q, st);
      }
    }
  }

  /** The walk to a normalised parent that exists reaches it. */
  lemma WalkToParent(fs: Entries, q: Path)
    requires Tree(fs) && Normal(q) && q != [] && Parent(q) in fs && NoFileAlong(fs, Parent(q))
    ensures CreationSlot(fs, q) == Slot(Parent(q), Name(q))
  {
    var P := Parent(q);
    assert Normal(P);
    WalkDown(fs, P, 0);
    assert P[..0] == [] && P[0..] == P;
    assert P[..|P|] == P;
  }

  lemma MkdirParentPresent(fs: Entries, q: Path, st: Stamp)
    requires Tree(fs) && Normal(q) && q != [] && Parent(q) in fs && NoFileAlong(fs, q)
    requires NoFileAlong(fs, Parent(q))
    ensures MkdirParents(fs, q, st).Done?
    ensures var fs' := MkdirParents(fs, q, st).fs;
      && Tree(fs')
      && DirsAlong(fs', q)
      && (forall p :: p in fs' && p !in fs ==> IsRelativeTo(q, p))
  {
    MkdirUnderParent(fs, q, st);
    TreeMkdirParents(fs, q, st);
    var fs' := MkdirParents(fs, q, st).fs;
    assert q[..|q|] == q && Parent(q)[..|Parent(q)|] == Parent(q);
    assert q in fs' && fs'[q].Dir?;
    DirsBelowParent(fs, fs', q);
  }

  /** With the parent a directory of the tree, and `q` a directory of `fs'` ⊇ `fs`, every prefix of `q` is one. */
  lemma DirsBelowParent(fs: Entries, fs': Entries, q: Path)
    requires Tree(fs) && q != [] && Parent(q) in fs && fs[Parent(q)].Dir?
    requires forall p :: p in fs ==> p in fs' && fs'[p] == fs[p]
    requires q in fs' && fs'[q].Dir?
    ensures DirsAlong(fs', q)
  {
    var P := Parent(q);
    forall k | 0 <= k <= |q|
      ensures q[..k] in fs' && fs'[q[..k]].Dir?
    {
      if k < |q| {
        assert q[..k] == P[..k];
        PrefixClosed(fs, P, k);
        assert P[..|P|] == P;
      } else {
        assert q[..k] == q;
      }
    }
  }

  /** Under an existing parent, mkdir with parents makes the path or finds it a directory. */
  lemma MkdirUnderParent(fs: Entries, q: Path, st: Stamp)
    requires Tree(fs) && Normal(q) && q != [] && Parent(q) in fs && NoFileAlong(fs, q)
    requires NoFileAlong(fs, Parent(q))
    ensures MkdirParents(fs, q, st) ==
      if q in fs then Done(fs) else Done(fs[q := Dir(st.dirSize, st.now)])
  {
    WalkToParent(fs, q);
    assert IsName(Name(q));
    assert q == Parent(q) + [Name(q)];
    assert q[..|q|] == q;
    StatNormal(fs, q);
  }

  /** With the parent missing, os.mkdir of a normalised path raises ENOENT. */
  lemma MissingParentRaises(fs: Entries, q: Path, st: Stamp)
    requires Tree(fs) && Normal(q) && q != [] && Parent(q) !in fs && NoFileAlong(fs, Parent(q))
    ensures OsMkdir(fs, q, st) == Raised(ENOENT, fs)
  {
    var P := Parent(q);
    assert Normal(P);
    WalkDown(fs, P, 0);
    assert P[..0] == [] && P[0..] == P;
    assert CreationSlot(fs, q) == NoSlot(ENOENT);
    MkdirWithoutSlot(fs, q, st);
  }

  /** After ENOENT, mkdir with parents creates the parent and retries once. */
  lemma MkdirRetry(fs: Entries, u: seq<string>, st: Stamp, fs1: Entries)
    requires OsMkdir(fs, u, st) == Raised(ENOENT, fs) && Parent(u) != u
    requires MkdirParents(fs, Parent(u), st) == Done(fs1)
    ensures MkdirParents(fs, u, st) == MkdirExistOk(fs1, u, st)
  {
  }

  /** With the parent present and the target absent, os.mkdir adds the target. */
  lemma MkdirCreates(fs: Entries, q: Path, st: Stamp)
    requires Tree(fs) && Normal(q) && q != [] && q !in fs
    requires Parent(q) in fs && NoFileAlong(fs, Parent(q))
    ensures MkdirExistOk(fs, q, st) == Done(fs[q := Dir(st.dirSize, st.now)])
  {
    WalkToParent(fs, q);
    assert IsName(Name(q));
    assert q == Parent(q) + [Name(q)];
    StatNormal(fs, q);
  }

  /** Adding `q` to a map holding every prefix of its parent holds every prefix of `q`. */
  lemma ExtendAlong(fs: Entries, fs1: Entries, q: Path, st: Stamp)
    requires q != [] && DirsAlong(fs1, Parent(q))
    requires forall p :: p in fs1 && p !in fs ==> IsRelativeTo(Parent(q), p)
    ensures var fs' := fs1[q := Dir(st.dirSize, st.now)];
      && DirsAlong(fs', q)
      && (forall p :: p in fs' && p !in fs ==> IsRelativeTo(q, p))
  {
    var P := Parent(q);
    var fs' := fs1[q := Dir(st.dirSize, st.now)];
    forall k | 0 <= k <= |q|
      ensures q[..k] in fs' && fs'[q[..k]].Dir?
    {
      if k < |q| {
        assert q[..k] == P[..k];
      } else {
        assert q[..k] == q;
      }
    }
    forall p | p in fs' && p !in fs
      ensures IsRelativeTo(q, p)
    {
      if p != q {
        assert IsRelativeTo(P, p);
        assert P[..|p|] == q[..|p|];
      } else {
        assert q[..|q|] == q;
      }
    }
  }

  lemma MkdirParentMissing(fs: Entries, q: Path, st: Stamp)
    requires Tree(fs) && Normal(q) && q != [] && Parent(q) !in fs && NoFileAlong(fs, Parent(q))
    requires var m := MkdirParents(fs, Parent(q), st);
      && m.Done? && Tree(m.fs) && DirsAlong(m.fs, Parent(q))
      && (forall p :: p in m.fs && p !in fs ==> IsRelativeTo(Parent(q), p))
    ensures MkdirParents(fs, q, st).Done?
    ensures var fs' := MkdirParents(fs, q, st).fs;
      && Tree(fs')
      && DirsAlong(fs', q)
      && (forall p :: p in fs' && p !in fs ==> IsRelativeTo(q, p))
  {
    var P := Parent(q);
    var fs1 := MkdirParents(fs, P, st).fs;
    MissingParentRaises(fs, q, st);
    assert P != q;
    MkdirRetry(fs, q, st, fs1);
    assert q !in fs1;
    assert P[..|P|] == P;
    assert NoFileAlong(fs1, P);
    MkdirCreates(fs1, q, st);
    TreeMkdirParents(fs, q, st);
    ExtendAlong(fs, fs1, q, st);
  }

  /** In a tree the walk to an entry along its own path reaches it. */
  lemma WalkToEntry(fs: Entries, p: Path)
    requires Tree(fs) && p in fs
    ensures Walk(fs, [], p) == Found(p)
  {
    forall j | 0 < j < |p| && p[..j] in fs
      ensures fs[p[..j]].Dir?
    {
      PrefixClosed(fs, p, j);
    }
    WalkDown(fs, p, 0);
    assert p[..0] == [] && p[0..] == p;
  }

  /** A walk that reaches a directory carries on from there. */
  lemma {:induction false} WalkAppend(fs: Entries, cur: Path, a: seq<string>, b: seq<string>, c: Path)
    requires Walk(fs, cur, a) == Found(c) && c in fs && fs[c].Dir?
    ensures Walk(fs, cur, a + b) == Walk(fs, c, b)
    decreases |a|
  {
    if a == [] {
      assert a + b == b;
    } else {
      var s, rest := a[0], a[1..];
      assert a == [s] + rest;
      assert a + b == [s] + (rest + b);
      WalkCons(fs, cur, s, rest);
      WalkCons(fs, cur, s, rest + b);
      if s == "" || s == "." {
        WalkAppend(fs, cur, rest, b, c);
      } else if s == ".." {
        WalkAppend(fs, Parent(cur), rest, b, c);
      } else if rest == [] {
        assert rest + b == b;
      } else {
        WalkAppend(fs, cur + [s], rest, b, c);
      }
    }
  }

  /** One step of the walk, on a segment followed by the rest. */
  lemma WalkCons(fs: Entries, cur: Path, s: string, rest: seq<string>)
    ensures Walk(fs, cur, [s] + rest) ==
      if s == "" || s == "." then Walk(fs, cur, rest)
      else if s == ".." then Walk(fs, Parent(cur), rest)
      else if cur + [s] !in fs then Failed(ENOENT)
      else if rest != [] && !fs[cur + [s]].Dir? then Failed(ENOTDIR)
      else Walk(fs, cur + [s], rest)
  {
    assert ([s] + rest)[0] == s && ([s] + rest)[1..] == rest;
  }

  /** os.mkdir fails as the lookup of the parent does. */
  lemma MkdirWithoutSlot(fs: Entries, u: seq<string>, st: Stamp)
    requires u != [] && CreationSlot(fs, u).NoSlot?
    ensures OsMkdir(fs, u, st) == Raised(CreationSlot(fs, u).errno, fs)
  {
  }

  /**
   * Making the parents of a normalised path and then opening it for writing
   * succeeds when no prefix of the parent is a file and the path is not a
   * directory; the file lands exactly at the path.
   */
  lemma WriteAfterMkdir(fs: Entries, q: Path, data: seq<byte>, st: Stamp)
    requires Tree(fs) && Normal(q) && q != []
    requires !(q in fs && fs[q].Dir?) && NoFileAlong(fs, Parent(q))
    ensures MkdirParents(fs, Parent(q), st).Done?
    ensures var fs1 := MkdirParents(fs, Parent(q), st).fs;
      OpenForWrite(fs1, q, data, st) == Done(fs1[q := File(data, st.now)])
  {
    var P := Parent(q);
    assert P == q[..|q| - 1];
    assert Normal(P);
    assert q == P + [Name(q)];
    MkdirNormal(fs, P, st);
    var fs1 := MkdirParents(fs, P, st).fs;
    assert P in fs1 by { assert P[..|P|] == P; }
    WalkToParent(fs1, q);
    assert q in fs1 ==> q in fs && fs1[q] == fs[q];
  }
}
