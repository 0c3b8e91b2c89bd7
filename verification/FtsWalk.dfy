/**
 The file hierarchy walk of Libc/gen/fts.c without chdir (FTS_NOCHDIR), as a machine over the list of
 nodes that the stream still holds, and the depth-first walk that it carries out.

 The file system is a finite graph of directories that does not change during the walk.
 */
module FtsWalk {

  datatype FileId = FileId(dev: nat, ino: nat)

  /** What lstat sees at a name.  A link leads to `target`; a link that leads nowhere leads to Absent. */
  datatype File = Absent | Directory(id: FileId) | Regular | Special | Link(target: File)

  datatype Entry = Entry(name: string, file: File)

  /** The directories that can be read, and what they list. */
  type FileSystem = map<FileId, seq<Entry>>

  datatype Options = Options(logical: bool, comFollow: bool, seeDot: bool)

  datatype Info = D | DC | DEFAULT | DNR | DOT | DP | ERR | F | INIT | NS | SL | SLNONE

  datatype Instr = NoInstr | Follow | Skip

  /** An FTSENT as the application sees it; `id` is only meaningful for directories. */
  datatype Node = Node(level: int, path: string, name: string, file: File, id: FileId,
                       info: Info, instr: Instr, errno: bool)

  const NO_ID := FileId(0, 0)
  const USHRT_MAX: nat := 65535
  const PATH_MAX: nat := 1024

  // ----- fts_stat -----

  predicate IsDot(name: string) {
    name == "." || name == ".."
  }

  function Resolve(f: File): (r: File)
    ensures !r.Link?
  {
    if f.Link? then Resolve(f.target) else f
  }

  /** The type of a node, given the directories open above it, and its directory identity. */
  function Stat(o: Options, follow: bool, name: string, f: File, above: set<FileId>): Info {
    var seen := if o.logical || follow then Resolve(f) else f;
    match seen
    case Absent => if f.Link? then SLNONE else NS
    case Directory(id) => if IsDot(name) then DOT else if id in above then DC else D
    case Regular => F
    case Special => DEFAULT
    case Link(_) => SL
  }

  function StatId(o: Options, follow: bool, f: File): FileId {
    var seen := if o.logical || follow then Resolve(f) else f;
    if seen.Directory? then seen.id else NO_ID
  }

  // ----- the list of nodes held: each level's pending nodes, then the open directory above them -----

  /** Directories open above a node of level `level` that is followed by `below` in the list. */
  function Above(level: int, below: seq<Node>): set<FileId>
    decreases below
  {
    if below == [] then {}
    else (if below[0].level < level then {below[0].id} else {}) + Above(below[0].level, below[1..])
  }

  /** NAPPEND: the part of a directory's path to which names are appended. */
  function Prefix(n: Node): string {
    if n.level == 0 && n.path == "/" then "" else n.path
  }

  function Visible(o: Options, entries: seq<Entry>): seq<Entry> {
    if entries == [] then []
    else (if !o.seeDot && IsDot(entries[0].name) then [] else [entries[0]]) + Visible(o, entries[1..])
  }

  /** The node that fts_build makes of one entry of directory dir. */
  function Child(o: Options, dir: Node, above: set<FileId>, e: Entry): Node {
    Node(dir.level + 1, Prefix(dir) + "/" + e.name, e.name, e.file, StatId(o, false, e.file),
         Stat(o, false, e.name, e.file, above), NoInstr, Stat(o, false, e.name, e.file, above) == NS)
  }

  function Children(o: Options, dir: Node, above: set<FileId>, entries: seq<Entry>): (r: seq<Node>)
    ensures |r| == |entries|
    ensures forall i | 0 <= i < |r| :: r[i] == Child(o, dir, above, entries[i])
  {
    if entries == [] then [] else [Child(o, dir, above, entries[0])] + Children(o, dir, above, entries[1..])
  }

  // ----- the depth-first walk -----

  /** What one fts_read reports: the node's type, depth and path, and the text in the shared path buffer. */
  datatype Event = Event(info: Info, level: int, path: string, text: string)

  function Report(n: Node): Event {
    Event(n.info, n.level, n.path, n.path)
  }

  /** The entries that the walk of directory n will visit. */
  function Listing(fs: FileSystem, o: Options, n: Node): seq<Entry>
    requires n.id in fs
  {
    Visible(o, fs[n.id])
  }

  /** The last report of an empty directory; for the root "/" the buffer has been cleared. */
  function EmptyReport(n: Node): Event {
    Event(DP, n.level, n.path, if Prefix(n) == "" then "" else n.path)
  }

  /** Everything reported about a directory after its pre-order visit. */
  function Inside(fs: FileSystem, o: Options, n: Node, above: set<FileId>): seq<Event>
    decreases |fs.Keys - above|, 0
  {
    if n.id !in fs || n.id in above then [Report(n.(info := DNR))]
    else
      var entries := Listing(fs, o, n);
      if entries == [] then [EmptyReport(n)]
      else
        Smaller(fs, n.id, above);
        VisitAll(fs, o, Children(o, n, above + {n.id}, entries), above + {n.id}) + [Report(n.(info := DP))]
  }

  /** What is still to come of a node after its first report. */
  function After(fs: FileSystem, o: Options, n: Node, above: set<FileId>): seq<Event>
    decreases |fs.Keys - above|, 1
  {
    if n.info == D then Inside(fs, o, n, above) else []
  }

  function Visit(fs: FileSystem, o: Options, n: Node, above: set<FileId>): seq<Event>
    decreases |fs.Keys - above|, 2
  {
    [Report(n)] + After(fs, o, n, above)
  }

  function VisitAll(fs: FileSystem, o: Options, nodes: seq<Node>, above: set<FileId>): seq<Event>
    decreases |fs.Keys - above|, 3, |nodes|
  {
    if nodes == [] then [] else Visit(fs, o, nodes[0], above) + VisitAll(fs, o, nodes[1..], above)
  }

  lemma {:induction false} Smaller(fs: FileSystem, id: FileId, above: set<FileId>)
    requires id in fs && id !in above
    ensures |fs.Keys - (above + {id})| < |fs.Keys - above|
  {
    assert fs.Keys - above == (fs.Keys - (above + {id})) + {id};
  }

  // ----- the machine -----

  /**
   A stream: the nodes it holds, the current one first; the size of the path buffer; whether it has
   given up (FTS_STOP); and whether the buffer has lost the path of the current node.
   */
  datatype Stream = Stream(nodes: seq<Node>, size: nat, stop: bool, blank: bool)

  /** The outcome of fts_build: how many nodes it made before it gave up, if it did, and the buffer size. */
  datatype Built = Built(ok: bool, size: nat)

  /** fts_palloc(more) on a buffer of n bytes. */
  function Enlarged(n: nat, more: nat): nat {
    n + more + 256
  }

  /** Making room for each name in turn after a prefix and slash of `len` characters. */
  function MakeRoom(entries: seq<Entry>, len: nat, size: nat): Built {
    if entries == [] then Built(true, size)
    else
      var name := entries[0].name;
      var size1 := if |name| >= size - len then Enlarged(size, |name| + len + 1) else size;
      if (size1 != size && size1 >= USHRT_MAX) || len + |name| >= USHRT_MAX then Built(false, size1)
      else MakeRoom(entries[1..], len, size1)
  }

  /** Opening the path of a node leads to a directory that can be read. */
  predicate Readable(fs: FileSystem, n: Node) {
    Resolve(n.file).Directory? && Resolve(n.file).id in fs
  }

  /** The entries of that directory that become nodes. */
  function Contents(fs: FileSystem, o: Options, n: Node): seq<Entry>
    requires Readable(fs, n)
  {
    Visible(o, fs[Resolve(n.file).id])
  }

  /** Reading a directory: its children go to the front of the list. */
  function Descend(fs: FileSystem, o: Options, s: Stream): (Stream, bool)
    requires s.nodes != []
  {
    var n := s.nodes[0];
    if !Readable(fs, n) then (s.(nodes := [n.(info := DNR, errno := true)] + s.nodes[1..]), true)
    else
      var entries := Contents(fs, o, n);
      var len := |Prefix(n)| + 1;
      var room := MakeRoom(entries, len, s.size);
      if !room.ok then (Stream([n.(info := ERR)] + s.nodes[1..], room.size, true, s.blank), false)
      else if entries == [] then
        (Stream([n.(info := DP)] + s.nodes[1..], s.size, false, Prefix(n) == "" && n.path != ""), true)
      else
        var above := Above(n.level + 1, s.nodes);
        (Stream(Children(o, n, above, entries) + s.nodes, room.size, false, false), true)
  }

  /** What fts_load leaves in the name of a root: the part after its last slash, if there is any other character. */
  function BaseName(path: string): string {
    var i := LastSlash(path);
    if i < 0 || (i == 0 && |path| == 1) then path else path[i + 1..]
  }

  function LastSlash(path: string): (i: int)
    ensures -1 <= i < |path|
    ensures i >= 0 ==> path[i] == '/'
    ensures forall k | i < k < |path| :: path[k] != '/'
  {
    if path == "" then -1
    else if path[|path| - 1] == '/' then |path| - 1
    else LastSlash(path[..|path| - 1])
  }

  /**
   Leaving the current node: the next on its level that is not to be skipped, or the directory above.
   All the while the path buffer leads to `named`, the file of the node that was returned last.
   */
  function Advance(o: Options, s: Stream, named: File): (Stream, bool)
    requires s.nodes != []
    decreases |s.nodes|
  {
    var rest := s.nodes[1..];
    if rest == [] then (s.(nodes := [], blank := false), false)
    else
      var p := rest[0];
      if p.level < s.nodes[0].level then
        (s.(nodes := [p.(info := if p.errno then ERR else DP)] + rest[1..]), true)
      else if p.level == 0 then
        (s.(nodes := [p.(name := BaseName(p.path))] + rest[1..], blank := false), true)
      else if p.instr == Skip then Advance(o, s.(nodes := rest), named)
      else if p.instr == Follow then
        var above := Above(p.level, rest[1..]);
        (s.(nodes := [Followed(o, p, named, above)] + rest[1..]), true)
      else (s.(nodes := rest), true)
  }

  /**
   Carrying out FTS_FOLLOW on p: its type and identity become those of the file that the path buffer
   leads to.  That is p's own file if p is the current node, and the file returned before it if not.
   */
  function Followed(o: Options, p: Node, named: File, above: set<FileId>): Node {
    var info := Stat(o, true, p.name, named, above);
    p.(instr := NoInstr, info := info,
       id := if Resolve(named).Directory? then Resolve(named).id else p.id,
       errno := p.errno || info == NS)
  }

  /** fts_read: the new state, and whether the first node in it is returned to the application. */
  function Read(fs: FileSystem, o: Options, s: Stream): (Stream, bool) {
    if s.nodes == [] || s.stop then (s, false)
    else
      var p := s.nodes[0].(instr := NoInstr);
      var instr := s.nodes[0].instr;
      var s1 := s.(nodes := [p] + s.nodes[1..]);
      if instr == Follow && (p.info == SL || p.info == SLNONE) then
        (s.(nodes := [Followed(o, p, p.file, Above(p.level, s.nodes[1..]))] + s.nodes[1..]), true)
      else if p.info == D then
        if instr == Skip then (s.(nodes := [p.(info := DP)] + s.nodes[1..]), true)
        else Descend(fs, o, s1)
      else Advance(o, s1, p.file)
  }

  /** The event that a read reports when it returns the first node of s. */
  function Reported(s: Stream): Event
    requires s.nodes != []
  {
    var n := s.nodes[0];
    Event(n.info, n.level, n.path, if s.blank then "" else n.path)
  }

  // ----- what the machine keeps -----

  /** Facts about a node on its own: its identity, depth and lengths. */
  predicate NodeOk(n: Node, size: nat) {
    && (n.errno ==> n.file == Absent || n.info == NS || n.info == DNR)
    && (n.info == SL ==> n.file.Link?)
    && 0 <= 2 * n.level <= |n.path| < size && |n.path| < USHRT_MAX && '\0' !in n.path
    && (n.level > 0 ==> Stem(n) + "/" + n.name == n.path)
  }

  /** The path of the directory that a node below a root was found in, as it appears in the node's own path. */
  function Stem(n: Node): string {
    if |n.name| < |n.path| then n.path[..|n.path| - |n.name| - 1] else ""
  }

  /** Neighbours in the list: of one directory, or the last of a directory and that directory itself. */
  predicate Adjoin(n: Node, next: Node) {
    || (&& next.level == n.level && next.info != INIT && (next.errno ==> next.file == Absent)
        && (if n.level > 0 then Stem(next) == Stem(n) else next.name == next.path))
    || (&& next.level == n.level - 1 && next.info == D && !next.errno && Resolve(next.file).Directory?
        && Stem(n) == Prefix(next))
  }

  /**
   A list of nodes as the stream holds it: children up to their directory, then its siblings, and
   so on up to the roots.
   */
  predicate Held(nodes: seq<Node>, size: nat)
    decreases nodes
  {
    nodes == [] ||
    (&& NodeOk(nodes[0], size)
     && (if |nodes| == 1 then nodes[0].level == 0 else Adjoin(nodes[0], nodes[1]))
     && (nodes[0].info == D ==> nodes[0].id !in Above(nodes[0].level, nodes[1..]))
     && Held(nodes[1..], size))
  }

  predicate Sound(s: Stream) {
    && Held(s.nodes, s.size) && (s.stop || s.size < USHRT_MAX)
    && (s.blank ==> s.nodes != [] && s.nodes[0].level == 0 && s.nodes[0].info == DP)
  }

  /** The names in a directory are C strings, and not empty. */
  predicate IsName(name: string) {
    name != "" && '\0' !in name
  }

  predicate WellFormed(fs: FileSystem) {
    forall id, i | id in fs && 0 <= i < |fs[id]| :: IsName(fs[id][i].name)
  }

  lemma {:induction false} HeldGrows(nodes: seq<Node>, size: nat, size': nat)
    requires Held(nodes, size) && size <= size'
    ensures Held(nodes, size')
    decreases nodes
  {
    if nodes != [] {
      HeldGrows(nodes[1..], size, size');
    }
  }

  lemma {:induction false} VisibleNames(o: Options, entries: seq<Entry>)
    requires forall i | 0 <= i < |entries| :: IsName(entries[i].name)
    ensures forall i | 0 <= i < |Visible(o, entries)| :: IsName(Visible(o, entries)[i].name)
    decreases entries
  {
    if entries != [] {
      VisibleNames(o, entries[1..]);
    }
  }

  /** Where fts_build finds room, every path fits the buffer and its length fits 16 bits. */
  lemma {:induction false} RoomFits(entries: seq<Entry>, len: nat, size: nat)
    requires MakeRoom(entries, len, size).ok && size < USHRT_MAX
    ensures size <= MakeRoom(entries, len, size).size < USHRT_MAX
    ensures forall i | 0 <= i < |entries| ::
              len + |entries[i].name| < MakeRoom(entries, len, size).size && len + |entries[i].name| < USHRT_MAX
    decreases entries
  {
    if entries != [] {
      var name := entries[0].name;
      var size1 := if |name| >= size - len then Enlarged(size, |name| + len + 1) else size;
      RoomFits(entries[1..], len, size1);
      forall i | 0 <= i < |entries|
        ensures len + |entries[i].name| < MakeRoom(entries, len, size).size && len + |entries[i].name| < USHRT_MAX
      {
        assert i > 0 ==> entries[i] == entries[1..][i - 1];
      }
    }
  }

  lemma {:induction false} RoomGrows(entries: seq<Entry>, len: nat, size: nat)
    ensures size <= MakeRoom(entries, len, size).size
    decreases entries
  {
    if entries != [] {
      var name := entries[0].name;
      RoomGrows(entries[1..], len, if |name| >= size - len then Enlarged(size, |name| + len + 1) else size);
    }
  }

  lemma {:induction false} ChildOk(o: Options, dir: Node, above: set<FileId>, e: Entry, size: nat)
    requires IsName(e.name) && 0 <= 2 * dir.level <= |dir.path| && '\0' !in dir.path
    requires |Prefix(dir)| + 1 + |e.name| < size && |Prefix(dir)| + 1 + |e.name| < USHRT_MAX
    ensures var c := Child(o, dir, above, e);
            && NodeOk(c, size) && Stem(c) == Prefix(dir) && c.level == dir.level + 1
            && (c.errno ==> c.file == Absent) && c.info != INIT && (c.info == D ==> c.id !in above)
  {
    var c := Child(o, dir, above, e);
    assert |c.path| == |Prefix(dir)| + 1 + |e.name|;
    assert c.path[..|Prefix(dir)|] == Prefix(dir);
  }

  lemma {:induction false} HeldCons(n: Node, rest: seq<Node>, size: nat)
    requires rest != [] && Held(rest, size) && NodeOk(n, size) && Adjoin(n, rest[0])
    requires n.info == D ==> n.id !in Above(n.level, rest)
    ensures Held([n] + rest, size)
  {
    assert ([n] + rest)[1..] == rest;
  }

  /** The children of a directory go in front of it. */
  lemma {:induction false} HeldChildren(o: Options, nodes: seq<Node>, above: set<FileId>, entries: seq<Entry>,
                                        size: nat)
    requires nodes != [] && nodes[0].info == D && Held(nodes, size) && above == Above(nodes[0].level + 1, nodes)
    requires Resolve(nodes[0].file).Directory?
    requires forall i | 0 <= i < |entries| ::
               var len := |Prefix(nodes[0])| + 1 + |entries[i].name|;
               IsName(entries[i].name) && len < size && len < USHRT_MAX
    ensures Held(Children(o, nodes[0], above, entries) + nodes, size)
    ensures Above(nodes[0].level + 1, Children(o, nodes[0], above, entries) + nodes) == above
    decreases entries
  {
    hide NodeOk, Prefix, Stem, Child, Held, Above;
    var cs := Children(o, nodes[0], above, entries);
    if entries == [] {
      assert cs + nodes == nodes;
    } else {
      var rest := Children(o, nodes[0], above, entries[1..]) + nodes;
      assert cs + nodes == [cs[0]] + rest;
      HeldChildren(o, nodes, above, entries[1..], size);
      NodeFacts(nodes, size);
      ChildOk(o, nodes[0], above, entries[0], size);
      if |entries| > 1 {
        assert rest[0] == Child(o, nodes[0], above, entries[1]);
        ChildOk(o, nodes[0], above, entries[1], size);
      } else {
        assert rest == nodes;
      }
      HeldCons(cs[0], rest, size);
      AboveCons(cs[0], rest);
    }
  }

  /** A child in front of a list does not change the directories open above it. */
  lemma {:induction false} AboveCons(n: Node, rest: seq<Node>)
    ensures Above(n.level, [n] + rest) == Above(n.level, rest)
  {
    assert ([n] + rest)[1..] == rest;
  }

  lemma {:induction false} NodeFacts(nodes: seq<Node>, size: nat)
    requires nodes != [] && Held(nodes, size)
    ensures NodeOk(nodes[0], size) && 0 <= 2 * nodes[0].level <= |nodes[0].path| && '\0' !in nodes[0].path
    ensures nodes[0].info == D && nodes[0].errno ==> nodes[0].file == Absent
  {
  }

  /** Replacing the current node by one of the same place and path. */
  lemma {:induction false} HeldHead(nodes: seq<Node>, n: Node, size: nat)
    requires nodes != [] && Held(nodes, size) && NodeOk(n, size)
    requires n.level == nodes[0].level && (n.level > 0 ==> Stem(n) == Stem(nodes[0]))
    requires n.info == D ==> n.id !in Above(n.level, nodes[1..])
    ensures Held([n] + nodes[1..], size)
  {
    assert ([n] + nodes[1..])[1..] == nodes[1..];
    if |nodes| > 1 {
      assert ([n] + nodes[1..])[1] == nodes[1];
    }
  }

  lemma {:induction false} FollowedOk(o: Options, p: Node, named: File, above: set<FileId>, size: nat)
    requires NodeOk(p, size) && p.level >= 0 && (p.errno ==> p.file == Absent)
    ensures var n := Followed(o, p, named, above);
            && NodeOk(n, size) && n.level == p.level && Stem(n) == Stem(p)
            && (n.info == D ==> n.id !in above)
  {
  }

  lemma {:induction false} AdvanceKeepsSound(o: Options, s: Stream, named: File)
    requires s.nodes != [] && Sound(s) && !s.stop
    ensures Sound(Advance(o, s, named).0) && !Advance(o, s, named).0.stop
    decreases |s.nodes|
  {
    hide NodeOk, Stem, Followed;
    var rest := s.nodes[1..];
    if rest != [] {
      var p := rest[0];
      HeadFacts(rest, s.size);
      if p.level < s.nodes[0].level {
        DpOk(p, s.size);
        HeldHead(rest, p.(info := if p.errno then ERR else DP), s.size);
      } else if p.level == 0 {
        RootOk(p, BaseName(p.path), s.size);
        HeldHead(rest, p.(name := BaseName(p.path)), s.size);
      } else if p.instr == Skip {
        AdvanceKeepsSound(o, s.(nodes := rest), named);
      } else if p.instr == Follow {
        FollowedOk(o, p, named, Above(p.level, rest[1..]), s.size);
        HeldHead(rest, Followed(o, p, named, Above(p.level, rest[1..])), s.size);
      }
    }
  }

  lemma {:induction false} HeadFacts(nodes: seq<Node>, size: nat)
    requires nodes != [] && Held(nodes, size)
    ensures NodeOk(nodes[0], size) && nodes[0].level >= 0
    ensures nodes[0].errno ==> nodes[0].file == Absent || nodes[0].info == NS || nodes[0].info == DNR
  {
  }

  lemma {:induction false} DpOk(p: Node, size: nat)
    requires NodeOk(p, size) && p.info == D
    ensures NodeOk(p.(info := DP), size) && Stem(p.(info := DP)) == Stem(p)
  {
  }

  lemma {:induction false} RootOk(p: Node, name: string, size: nat)
    requires NodeOk(p, size) && p.level == 0
    ensures NodeOk(p.(name := name), size)
  {
  }

  lemma {:induction false} ChildrenKeepHeld(o: Options, nodes: seq<Node>, entries: seq<Entry>, size: nat)
    requires nodes != [] && nodes[0].info == D && Held(nodes, size) && size < USHRT_MAX
    requires Resolve(nodes[0].file).Directory?
    requires forall i | 0 <= i < |entries| :: IsName(entries[i].name)
    requires MakeRoom(entries, |Prefix(nodes[0])| + 1, size).ok
    ensures var room := MakeRoom(entries, |Prefix(nodes[0])| + 1, size);
            var r := Children(o, nodes[0], Above(nodes[0].level + 1, nodes), entries) + nodes;
            room.size < USHRT_MAX && Held(r, room.size)
  {
    hide Held, Above, Children, MakeRoom;
    var len := |Prefix(nodes[0])| + 1;
    var room := MakeRoom(entries, len, size);
    RoomFits(entries, len, size);
    HeldGrows(nodes, size, room.size);
    HeldChildren(o, nodes, Above(nodes[0].level + 1, nodes), entries, room.size);
  }

  lemma {:induction false} DescendKeepsSound(fs: FileSystem, o: Options, s: Stream)
    requires WellFormed(fs) && s.nodes != [] && Sound(s) && !s.stop && s.nodes[0].info == D
    ensures Sound(Descend(fs, o, s).0)
  {
    hide NodeOk, Stem, Prefix, Held, Visible, Above;
    var n := s.nodes[0];
    HeadFacts(s.nodes, s.size);
    DpOk(n, s.size);
    DnrOk(n, s.size);
    if !Readable(fs, n) {
      HeldHead(s.nodes, n.(info := DNR, errno := true), s.size);
    } else {
      var entries := Contents(fs, o, n);
      var len := |Prefix(n)| + 1;
      var room := MakeRoom(entries, len, s.size);
      if room.ok && entries == [] {
        HeldHead(s.nodes, n.(info := DP), s.size);
        PrefixEmpty(n);
      } else if room.ok {
        VisibleNames(o, fs[Resolve(n.file).id]);
        ChildrenKeepHeld(o, s.nodes, entries, s.size);
      } else {
        HeldHead(s.nodes, n.(info := ERR), s.size);
        RoomGrows(entries, len, s.size);
        HeldGrows([n.(info := ERR)] + s.nodes[1..], s.size, room.size);
      }
    }
  }

  lemma {:induction false} PrefixEmpty(n: Node)
    ensures Prefix(n) == "" && n.path != "" ==> n.level == 0 && n.path == "/"
  {
  }

  lemma {:induction false} DnrOk(p: Node, size: nat)
    requires NodeOk(p, size) && p.info == D
    ensures NodeOk(p.(info := DNR, errno := true), size) && Stem(p.(info := DNR, errno := true)) == Stem(p)
    ensures NodeOk(p.(info := ERR), size) && Stem(p.(info := ERR)) == Stem(p)
  {
  }

  /**
   Every read keeps the shape of the list, the bounds on paths and levels, and the recorded identities of
   the open directories distinct.
   */
  lemma {:induction false} ReadKeepsSound(fs: FileSystem, o: Options, s: Stream)
    requires WellFormed(fs) && Sound(s)
    ensures Sound(Read(fs, o, s).0)
  {
    hide NodeOk, Stem, Descend, Advance, Followed;
    if s.nodes != [] && !s.stop {
      var p := s.nodes[0].(instr := NoInstr);
      var instr := s.nodes[0].instr;
      var above := Above(p.level, s.nodes[1..]);
      HeadFacts(s.nodes, s.size);
      InstrOk(s.nodes[0], NoInstr, s.size);
      HeldHead(s.nodes, p, s.size);
      var s1 := s.(nodes := [p] + s.nodes[1..]);
      if instr == Follow && (p.info == SL || p.info == SLNONE) {
        FollowedOk(o, p, p.file, above, s.size);
        HeldHead(s.nodes, Followed(o, p, p.file, above), s.size);
      } else if p.info == D {
        if instr == Skip {
          DpOk(p, s.size);
          HeldHead(s.nodes, p.(info := DP), s.size);
        } else {
          DescendKeepsSound(fs, o, s1);
        }
      } else {
        AdvanceKeepsSound(o, s1, p.file);
      }
    }
  }

  lemma {:induction false} InstrOk(p: Node, instr: Instr, size: nat)
    requires NodeOk(p, size)
    ensures NodeOk(p.(instr := instr), size) && Stem(p.(instr := instr)) == Stem(p)
  {
  }

  lemma {:induction false} HeldHeadInstr(s: Stream)
    requires Sound(s) && !s.stop && s.nodes != []
    ensures Sound(s.(nodes := [s.nodes[0].(instr := NoInstr)] + s.nodes[1..]))
  {
    hide NodeOk, Stem;
    HeadFacts(s.nodes, s.size);
    InstrOk(s.nodes[0], NoInstr, s.size);
    HeldHead(s.nodes, s.nodes[0].(instr := NoInstr), s.size);
  }
}
