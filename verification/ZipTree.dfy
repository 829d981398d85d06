/**
 lib/zip_file.rb: a directory tree is written into a zip archive as one list of entries.
 Names in a directory are distinct, non-empty and contain no slash, as on disk.
 */
module ZipTree {
  import opened Basics

  datatype Node = File(content: Bytes) | Dir(entries: Entries)

  /** The listing of a directory, in the order Dir.entries gives. */
  datatype Entries = Empty | More(name: string, node: Node, rest: Entries)

  predicate IsName(n: string) {
    n != "" && '/' !in n
  }

  predicate Listed(es: Entries, n: string) {
    es.More? && (es.name == n || Listed(es.rest, n))
  }

  predicate ValidNode(node: Node) {
    node.Dir? ==> ValidEntries(node.entries)
  }

  predicate ValidEntries(es: Entries) {
    es.More? ==> IsName(es.name) && !Listed(es.rest, es.name) && ValidNode(es.node) && ValidEntries(es.rest)
  }

  /** An archive member; a directory's name ends in a slash. */
  datatype Member = Member(name: string, content: Bytes)

  /** Path components joined by slashes. */
  function Render(path: seq<string>): string {
    if path == [] then ""
    else if |path| == 1 then path[0]
    else Render(path[..|path| - 1]) + "/" + path[|path| - 1]
  }

  function MemberFor(path: seq<string>, node: Node): Member {
    match node
    case File(content) => Member(Render(path), content)
    case Dir(_) => Member(Render(path) + "/", [])
  }

  /** The members for a listing found at path: each directory, then what is beneath it. */
  function Flat(es: Entries, path: seq<string>): seq<Member> {
    match es
    case Empty => []
    case More(name, node, rest) =>
      NodeMembers(node, path + [name]) + Flat(rest, path)
  }

  function NodeMembers(node: Node, path: seq<string>): seq<Member> {
    [MemberFor(path, node)] + (if node.Dir? then Flat(node.entries, path) else [])
  }

  // ----- reading an archive back

  /** The part before the first slash, and what follows it if there is one. */
  function FirstSlash(s: string): (i: nat)
    ensures i <= |s|
  {
    if s == "" || s[0] == '/' then 0 else 1 + FirstSlash(s[1..])
  }

  /** The components of a member name; a trailing slash adds none. */
  function Components(s: string): seq<string>
    decreases |s|
  {
    var i := FirstSlash(s);
    if i == |s| then (if s == "" then [] else [s])
    else [s[..i]] + Components(s[i + 1..])
  }

  predicate IsDirName(s: string) {
    s != "" && s[|s| - 1] == '/'
  }

  function Snoc(es: Entries, name: string, node: Node): Entries {
    match es
    case Empty => More(name, node, Empty)
    case More(n, x, rest) => More(n, x, Snoc(rest, name, node))
  }

  /** Adds a node at a path whose parent must be there and which must be free. */
  function Insert(es: Entries, path: seq<string>, node: Node): Option<Entries>
    decreases |path|, es
  {
    if path == [] then None
    else if |path| == 1 && !Listed(es, path[0]) then Some(Snoc(es, path[0], node))
    else
      match es
      case Empty => None
      case More(n, x, rest) =>
        if n != path[0] then
          match Insert(rest, path, node)
          case None => None
          case Some(r) => Some(More(n, x, r))
        else if |path| == 1 || x.File? then None
        else
          match Insert(x.entries, path[1..], node)
          case None => None
          case Some(sub) => Some(More(n, Dir(sub), rest))
  }

  function Extract(es: Entries, m: Member): Option<Entries> {
    Insert(es, Components(m.name), if IsDirName(m.name) then Dir(Empty) else File(m.content))
  }

  /** Extracting members in order; None as soon as one has no parent yet or is there already. */
  function ExtractAll(es: Entries, ms: seq<Member>): Option<Entries>
    decreases |ms|
  {
    if ms == [] then Some(es)
    else
      match Extract(es, ms[0])
      case None => None
      case Some(r) => ExtractAll(r, ms[1..])
  }

  lemma {:induction false} ExtractAppend(es: Entries, a: seq<Member>, b: seq<Member>)
    ensures ExtractAll(es, a + b) ==
            match ExtractAll(es, a)
            case None => None
            case Some(r) => ExtractAll(r, b)
    decreases |a|
  {
    if a == [] {
      assert a + b == b;
    } else {
      assert (a + b)[1..] == a[1..] + b;
      match Extract(es, a[0])
      case None =>
      case Some(r) => ExtractAppend(r, a[1..], b);
    }
  }

  // ----- names and components

  predicate IsPath(path: seq<string>) {
    forall i :: 0 <= i < |path| ==> IsName(path[i])
  }

  lemma {:induction false} FirstSlashAfter(a: string, b: string)
    requires '/' !in a && (b == "" || b[0] == '/')
    ensures FirstSlash(a + b) == |a|
  {
    if a == "" {
      assert a + b == b;
    } else {
      assert (a + b)[0] == a[0] != '/' && (a + b)[1..] == a[1..] + b;
      FirstSlashAfter(a[1..], b);
    }
  }

  /** Rendering from the front. */
  lemma {:induction false} RenderCons(path: seq<string>)
    requires |path| >= 2
    ensures Render(path) == path[0] + "/" + Render(path[1..])
  {
    var last := |path| - 1;
    if |path| > 2 {
      RenderCons(path[..last]);
      assert path[..last][1..] == path[1..][..last - 1] && path[1..][last - 1] == path[last];
      assert path[0] + "/" + (Render(path[1..][..last - 1]) + "/" + path[last])
          == (path[0] + "/" + Render(path[1..][..last - 1])) + "/" + path[last];
    }
  }

  lemma {:induction false} ComponentsOfName(name: string, slash: string)
    requires IsName(name) && (slash == "" || slash == "/")
    ensures Components(name + slash) == [name]
  {
    var s := name + slash;
    FirstSlashAfter(name, slash);
    if slash == "" {
      assert s == name;
    } else {
      assert s[..|name|] == name && s[|name| + 1..] == "";
      assert Components("") == [];
    }
  }

  lemma {:induction false} Associate(a: string, b: string, c: string, d: string)
    ensures (a + b + c) + d == a + (b + (c + d))
  {
  }

  lemma {:induction false} AroundSlash(name: string, tail: string)
    ensures (name + ("/" + tail))[..|name|] == name && (name + ("/" + tail))[|name| + 1..] == tail
  {
  }

  lemma {:induction false} ComponentsCons(name: string, tail: string)
    requires IsName(name)
    ensures Components(name + ("/" + tail)) == [name] + Components(tail)
  {
    FirstSlashAfter(name, "/" + tail);
    AroundSlash(name, tail);
  }

  lemma {:induction false} ComponentsOfRender(path: seq<string>, slash: string)
    requires IsPath(path) && path != [] && (slash == "" || slash == "/")
    ensures Components(Render(path) + slash) == path
    decreases |path|
  {
    var s := Render(path) + slash;
    if |path| == 1 {
      ComponentsOfName(path[0], slash);
      assert path == [path[0]];
    } else {
      RenderCons(path);
      var tail := Render(path[1..]) + slash;
      Associate(path[0], "/", Render(path[1..]), slash);
      ComponentsCons(path[0], tail);
      ComponentsOfRender(path[1..], slash);
      assert path == [path[0]] + path[1..];
    }
  }

  lemma {:induction false} RenderEndsInName(path: seq<string>)
    requires IsPath(path) && path != []
    ensures Render(path) != "" && !IsDirName(Render(path))
  {
    var last := path[|path| - 1];
    assert IsName(last);
    assert last[|last| - 1] in last;
    assert Render(path)[|Render(path)| - 1] == last[|last| - 1];
  }

  lemma {:induction false} ComponentsOfMember(path: seq<string>, node: Node)
    requires IsPath(path) && path != []
    ensures Components(MemberFor(path, node).name) == path
    ensures IsDirName(MemberFor(path, node).name) <==> node.Dir?
  {
    ComponentsOfRender(path, if node.Dir? then "/" else "");
    RenderEndsInName(path);
    assert Render(path) + "" == Render(path);
  }

  // ----- directories inside a tree

  function Concat(a: Entries, b: Entries): Entries {
    match a
    case Empty => b
    case More(n, x, rest) => More(n, x, Concat(rest, b))
  }

  /** The listing of the directory at path. */
  function At(es: Entries, path: seq<string>): Option<Entries>
    decreases |path|, es
  {
    if path == [] then Some(es)
    else
      match es
      case Empty => None
      case More(n, x, rest) =>
        if n != path[0] then At(rest, path)
        else if x.File? then None
        else At(x.entries, path[1..])
  }

  /** The tree with the listing of the directory at path replaced. */
  function Fill(es: Entries, path: seq<string>, sub: Entries): Entries
    decreases |path|, es
  {
    if path == [] then sub
    else
      match es
      case Empty => Empty
      case More(n, x, rest) =>
        if n != path[0] then More(n, x, Fill(rest, path, sub))
        else if x.File? then es
        else More(n, Dir(Fill(x.entries, path[1..], sub)), rest)
  }

  lemma {:induction false} InsertFills(es: Entries, path: seq<string>, d: Entries, name: string, node: Node)
    requires At(es, path) == Some(d) && !Listed(d, name)
    ensures Insert(es, path + [name], node) == Some(Fill(es, path, Snoc(d, name, node)))
    decreases |path|, es
  {
    if path == [] {
      assert path + [name] == [name];
    } else if es.name != path[0] {
      InsertFills(es.rest, path, d, name, node);
    } else {
      assert (path + [name])[1..] == path[1..] + [name];
      InsertFills(es.node.entries, path[1..], d, name, node);
    }
  }

  lemma {:induction false} FillFacts(es: Entries, path: seq<string>, d: Entries, d1: Entries, d2: Entries)
    requires At(es, path) == Some(d)
    ensures At(Fill(es, path, d1), path) == Some(d1)
    ensures Fill(Fill(es, path, d1), path, d2) == Fill(es, path, d2)
    ensures Fill(es, path, d) == es
    decreases |path|, es
  {
    if path == [] {
    } else if es.name != path[0] {
      FillFacts(es.rest, path, d, d1, d2);
    } else {
      FillFacts(es.node.entries, path[1..], d, d1, d2);
    }
  }

  lemma {:induction false} LastEntry(d: Entries, name: string, x: Entries, y: Entries)
    requires !Listed(d, name)
    ensures At(Snoc(d, name, Dir(x)), [name]) == Some(x)
    ensures Fill(Snoc(d, name, Dir(x)), [name], y) == Snoc(d, name, Dir(y))
  {
    if d.More? {
      LastEntry(d.rest, name, x, y);
    } else {
      assert [name][1..] == [];
    }
  }

  /** Going down into the directory that was just added. */
  lemma {:induction false} FillBelow(es: Entries, path: seq<string>, d: Entries, name: string, x: Entries, y: Entries)
    requires At(es, path) == Some(Snoc(d, name, Dir(x))) && !Listed(d, name)
    ensures At(es, path + [name]) == Some(x)
    ensures Fill(es, path + [name], y) == Fill(es, path, Snoc(d, name, Dir(y)))
    decreases |path|, es
  {
    if path == [] {
      assert path + [name] == [name];
      LastEntry(d, name, x, y);
    } else {
      assert (path + [name])[1..] == path[1..] + [name];
      if es.name != path[0] {
        FillBelow(es.rest, path, d, name, x, y);
      } else {
        FillBelow(es.node.entries, path[1..], d, name, x, y);
      }
    }
  }

  lemma {:induction false} ConcatSnoc(d: Entries, name: string, node: Node, rest: Entries)
    ensures Concat(Snoc(d, name, node), rest) == Concat(d, More(name, node, rest))
    ensures forall n :: Listed(Snoc(d, name, node), n) <==> Listed(d, n) || n == name
  {
    if d.More? {
      ConcatSnoc(d.rest, name, node, rest);
    }
  }

  lemma {:induction false} ConcatEmpty(d: Entries)
    ensures Concat(d, Empty) == d
  {
    if d.More? {
      ConcatEmpty(d.rest);
    }
  }

  /** Extracting the members of a listing appends the listing to the directory at path. */
  lemma {:induction false} ExtractFlat(tree: Entries, path: seq<string>, done: Entries, es: Entries)
    requires IsPath(path) && ValidEntries(es) && At(tree, path) == Some(done)
    requires forall n :: Listed(es, n) ==> !Listed(done, n)
    ensures ExtractAll(tree, Flat(es, path)) == Some(Fill(tree, path, Concat(done, es)))
    decreases es
  {
    match es
    case Empty =>
      ConcatEmpty(done);
      FillFacts(tree, path, done, done, done);
    case More(name, node, rest) =>
      var all := Snoc(done, name, node);
      var tree1 := Fill(tree, path, all);
      ExtractNode(tree, path, done, name, node);
      ExtractAppend(tree, NodeMembers(node, path + [name]), Flat(rest, path));
      ConcatSnoc(done, name, node, rest);
      FillFacts(tree, path, done, all, Concat(all, rest));
      ExtractFlat(tree1, path, all, rest);
  }

  lemma {:induction false} ExtractNode(tree: Entries, path: seq<string>, done: Entries, name: string, node: Node)
    requires IsPath(path) && IsName(name) && ValidNode(node) && At(tree, path) == Some(done) && !Listed(done, name)
    ensures ExtractAll(tree, NodeMembers(node, path + [name])) == Some(Fill(tree, path, Snoc(done, name, node)))
    decreases node
  {
    var here := path + [name];
    var m := MemberFor(here, node);
    var added := if node.Dir? then Dir(Empty) else node;
    var tree1 := Fill(tree, path, Snoc(done, name, added));
    ComponentsOfMember(here, node);
    InsertFills(tree, path, done, name, added);
    assert Extract(tree, m) == Some(tree1);
    ExtractAppend(tree, [m], if node.Dir? then Flat(node.entries, here) else []);
    assert ExtractAll(tree, [m]) == Some(tree1) by { assert [m][1..] == []; }
    if node.Dir? {
      FillFacts(tree, path, done, Snoc(done, name, added), Snoc(done, name, node));
      FillBelow(tree1, path, done, name, Empty, node.entries);
      ExtractFlat(tree1, here, Empty, node.entries);
    }
  }

  /** Flattening a tree and extracting the members gives the tree back, empty directories included. */
  lemma {:induction false} FlattenThenExtract(root: Entries)
    requires ValidEntries(root)
    ensures ExtractAll(Empty, Flat(root, [])) == Some(root)
  {
    ExtractFlat(Empty, [], Empty, root);
  }

  // ----- what it means that a list of members can be extracted

  predicate Has(es: Entries, path: seq<string>)
    decreases |path|, es
  {
    path != [] && es.More? &&
    if es.name != path[0] then Has(es.rest, path)
    else |path| == 1 || (es.node.Dir? && Has(es.node.entries, path[1..]))
  }

  lemma {:induction false} SnocHas(es: Entries, name: string, node: Node, q: seq<string>)
    requires !Listed(es, name)
    ensures !Has(es, [name]) && Has(Snoc(es, name, node), [name])
    ensures Has(es, q) ==> Has(Snoc(es, name, node), q)
    ensures At(Snoc(es, name, node), q).Some? ==>
              || At(es, q).Some? || (q == [name] && node.Dir?)
              || (|q| > 1 && q[0] == name && node.Dir? && At(node.entries, q[1..]).Some?)
  {
    if es.More? {
      SnocHas(es.rest, name, node, q);
    } else if |q| == 1 {
      assert q == [q[0]];
    }
  }

  /** Inserting takes a free place, keeps every other node, and makes at most one directory. */
  lemma {:induction false} InsertFacts(es: Entries, path: seq<string>, node: Node, q: seq<string>)
    requires Insert(es, path, node).Some? && (node.Dir? ==> node.entries.Empty?)
    ensures var r := Insert(es, path, node).value;
            && !Has(es, path) && Has(r, path)
            && (Has(es, q) ==> Has(r, q))
            && (At(r, q).Some? ==> At(es, q).Some? || (q == path && node.Dir?))
    decreases |path|, es
  {
    if |path| == 1 && !Listed(es, path[0]) {
      assert path == [path[0]];
      SnocHas(es, path[0], node, q);
    } else if es.name != path[0] {
      InsertFacts(es.rest, path, node, q);
    } else {
      InsertFacts(es.node.entries, path[1..], node, if q == [] then [] else q[1..]);
      assert path == [path[0]] + path[1..];
      assert q != [] ==> q == [q[0]] + q[1..];
    }
  }

  lemma {:induction false} InsertNeedsParent(es: Entries, path: seq<string>, node: Node)
    requires Insert(es, path, node).Some?
    ensures path != [] && At(es, path[..|path| - 1]).Some?
    decreases |path|, es
  {
    if |path| == 1 && !Listed(es, path[0]) {
    } else if es.name != path[0] {
      InsertNeedsParent(es.rest, path, node);
    } else {
      InsertNeedsParent(es.node.entries, path[1..], node);
      assert path[1..][..|path| - 2] == path[..|path| - 1][1..];
    }
  }

  /** In a list that extracts no path occurs twice, nor one that was there before. */
  lemma {:induction false} EachNodeOnce(es: Entries, ms: seq<Member>, j: nat)
    requires ExtractAll(es, ms).Some? && j < |ms|
    ensures !Has(es, Components(ms[j].name))
    ensures forall i :: 0 <= i < j ==> Components(ms[i].name) != Components(ms[j].name)
    decreases |ms|
  {
    var first, p := Components(ms[0].name), Components(ms[j].name);
    var r := Extract(es, ms[0]).value;
    InsertFacts(es, first, if IsDirName(ms[0].name) then Dir(Empty) else File(ms[0].content), p);
    if j > 0 {
      EachNodeOnce(r, ms[1..], j - 1);
      forall i | 0 <= i < j
        ensures Components(ms[i].name) != p
      {
        assert i > 0 ==> ms[i] == ms[1..][i - 1];
      }
    }
  }

  /** ... and every member's directory comes before it. */
  lemma {:induction false} DirectoryFirst(es: Entries, ms: seq<Member>, j: nat, parent: seq<string>)
    requires ExtractAll(es, ms).Some? && j < |ms|
    requires Components(ms[j].name) != [] && parent == Components(ms[j].name)[..|Components(ms[j].name)| - 1]
    ensures At(es, parent).Some? || exists i :: 0 <= i < j && Components(ms[i].name) == parent && IsDirName(ms[i].name)
    decreases |ms|
  {
    var added := if IsDirName(ms[0].name) then Dir(Empty) else File(ms[0].content);
    if j == 0 {
      InsertNeedsParent(es, Components(ms[0].name), added);
    } else {
      var r := Extract(es, ms[0]).value;
      DirectoryFirst(r, ms[1..], j - 1, parent);
      InsertFacts(es, Components(ms[0].name), added, parent);
      if At(r, parent).None? {
        var i :| 0 <= i < j - 1 && Components(ms[1..][i].name) == parent && IsDirName(ms[1..][i].name);
        assert ms[i + 1] == ms[1..][i];
      }
    }
  }

  /** The members of a tree: each path once, and each directory before everything in it. */
  lemma {:induction false} FlatIsOrdered(root: Entries, j: nat)
    requires ValidEntries(root) && j < |Flat(root, [])|
    ensures var ms := Flat(root, []); var path := Components(ms[j].name);
            && (forall i :: 0 <= i < j ==> Components(ms[i].name) != path)
            && (|path| > 1 ==>
                  exists i :: 0 <= i < j && Components(ms[i].name) == path[..|path| - 1] && IsDirName(ms[i].name))
  {
    FlattenThenExtract(root);
    var ms := Flat(root, []);
    EachNodeOnce(Empty, ms, j);
    var path := Components(ms[j].name);
    if |path| > 1 {
      DirectoryFirst(Empty, ms, j, path[..|path| - 1]);
    }
  }

  // ----- the code

  predicate DistinctNames(ms: seq<Member>) {
    forall i, j :: 0 <= i < j < |ms| ==> ms[i].name != ms[j].name
  }

  lemma {:induction false} FlatNamesDistinct(root: Entries)
    requires ValidEntries(root)
    ensures DistinctNames(Flat(root, []))
  {
    forall i, j | 0 <= i < j < |Flat(root, [])|
      ensures Flat(root, [])[i].name != Flat(root, [])[j].name
    {
      FlatIsOrdered(root, j);
    }
  }

  lemma {:induction false} JoinRenders(path: seq<string>, name: string)
    requires IsPath(path)
    ensures Render(path + [name]) == if Render(path) == "" then name else Render(path) + "/" + name
  {
    if path != [] {
      RenderEndsInName(path);
      assert (path + [name])[..|path|] == path;
    }
  }

  /** What the next entry of a listing adds cannot collide with what was written. */
  lemma {:induction false} MembersAhead(written: seq<Member>, es: Entries, path: seq<string>)
    requires es.More? && DistinctNames(written + Flat(es, path))
    ensures var ms := NodeMembers(es.node, path + [es.name]);
            && DistinctNames(written + ms)
            && written + Flat(es, path) == (written + ms) + Flat(es.rest, path)
  {
    var ms := NodeMembers(es.node, path + [es.name]);
    assert written + Flat(es, path) == (written + ms) + Flat(es.rest, path);
    DistinctPrefix(written + ms, Flat(es.rest, path));
  }

  lemma {:induction false} FirstIsNew(written: seq<Member>, ms: seq<Member>)
    requires ms != [] && DistinctNames(written + ms)
    ensures forall i :: 0 <= i < |written| ==> written[i].name != ms[0].name
    ensures DistinctNames((written + [ms[0]]) + ms[1..])
    ensures written + ms == (written + [ms[0]]) + ms[1..]
  {
    var all := written + ms;
    assert all == (written + [ms[0]]) + ms[1..];
    assert all[|written|] == ms[0];
    assert forall i :: 0 <= i < |written| ==> all[i] == written[i];
  }

  lemma {:induction false} DistinctPrefix(a: seq<Member>, b: seq<Member>)
    requires DistinctNames(a + b)
    ensures DistinctNames(a)
  {
    assert forall i :: 0 <= i < |a| ==> (a + b)[i] == a[i];
  }

  /** The open archive, io: mkdir refuses a name it holds, an output stream replaces one. */
  class Archive {
    var members: seq<Member>

    constructor ()
      ensures members == []
    {
      members := [];
    }

    predicate Holds(name: string)
      reads this
    {
      exists i :: 0 <= i < |members| && members[i].name == name
    }

    method Mkdir(path: string) returns (ok: bool)
      modifies this
      ensures ok <==> !old(Holds(path + "/"))
      ensures members == if ok then old(members) + [Member(path + "/", [])] else old(members)
    {
      ok := !Holds(path + "/");
      if ok {
        members := members + [Member(path + "/", [])];
      }
    }

    method PutIntoArchive(path: string, content: Bytes)
      modifies this
      ensures !old(Holds(path)) ==> members == old(members) + [Member(path, content)]
      ensures old(Holds(path)) ==>
                exists i :: 0 <= i < |old(members)| && old(members)[i].name == path
                            && members == old(members)[i := Member(path, content)]
    {
      if Holds(path) {
        var i :| 0 <= i < |members| && members[i].name == path;
        members := members[i := Member(path, content)];
      } else {
        members := members + [Member(path, content)];
      }
    }

    method RecursivelyDeflateDirectory(entries: Entries, zipFilePath: string, ghost components: seq<string>)
      returns (ok: bool)
      requires ValidEntries(entries) && IsPath(components) && zipFilePath == Render(components)
      requires DistinctNames(members + NodeMembers(Dir(entries), components))
      modifies this
      ensures ok && members == old(members) + NodeMembers(Dir(entries), components)
      decreases entries, 1
    {
      ghost var ms := NodeMembers(Dir(entries), components);
      FirstIsNew(members, ms);
      assert ms[1..] == Flat(entries, components);
      ok := Mkdir(zipFilePath);
      if !ok {
        return;
      }
      ok := WriteEntries(entries, zipFilePath, components);
    }

    /** One turn of write_entries. */
    method WriteEntry(name: string, node: Node, path: string, ghost components: seq<string>) returns (ok: bool)
      requires ValidNode(node) && IsName(name) && IsPath(components) && path == Render(components)
      requires DistinctNames(members + NodeMembers(node, components + [name]))
      modifies this
      ensures ok && members == old(members) + NodeMembers(node, components + [name])
      decreases node, 0
    {
      var zipFilePath := if path == "" then name else path + "/" + name;
      JoinRenders(components, name);
      match node {
        case Dir(sub) =>
          ok := RecursivelyDeflateDirectory(sub, zipFilePath, components + [name]);
        case File(content) =>
          FirstIsNew(members, NodeMembers(node, components + [name]));
          PutIntoArchive(zipFilePath, content);
          ok := true;
      }
    }

    /** write_entries: one pass over a listing, going down into directories as they come. */
    method WriteEntries(entries: Entries, path: string, ghost components: seq<string>) returns (ok: bool)
      requires ValidEntries(entries) && IsPath(components) && path == Render(components)
      requires DistinctNames(members + Flat(entries, components))
      modifies this
      ensures ok && members == old(members) + Flat(entries, components)
      decreases entries, 0
    {
      var rest := entries;
      ghost var all := members + Flat(entries, components);
      while rest.More?
        invariant ValidEntries(rest) && (rest == entries || rest < entries)
        invariant members + Flat(rest, components) == all
        decreases rest
      {
        MembersAhead(members, rest, components);
        ok := WriteEntry(rest.name, rest.node, path, components);
        if !ok {
          return;
        }
        rest := rest.rest;
      }
      assert members + [] == members;
      ok := true;
    }
  }

  /** Generator.write into a new archive: extracting it gives the directory tree back. */
  method Write(root: Entries) returns (io: Archive)
    requires ValidEntries(root)
    ensures fresh(io) && io.members == Flat(root, [])
    ensures ExtractAll(Empty, io.members) == Some(root)
  {
    io := new Archive();
    FlatNamesDistinct(root);
    assert io.members + Flat(root, []) == Flat(root, []);
    var ok := io.WriteEntries(root, "", []);
    FlattenThenExtract(root);
  }
}
