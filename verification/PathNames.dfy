/** Path lookup as a function of the path (ext2fs.c:845-1003). A path is a string of characters without
    the terminating null, and a directory tree is what reading an inode and searching a directory give. */
module PathNames {
  import opened Bytes

  type Char = Byte

  const NUL: Char := 0
  const SLASH: Char := 47
  const MAXPATHLEN: nat := 1024
  const MAXSYMLINKS: nat := 8

  /** FS_NAME_TOO_LONG stands for two: a component that is too long, and a path that does not fit the buffer. */
  datatype Error = NotDirectory | NameTooLong | PathTooLong | InvalidParameter | SymlinkLoop | NoEntry | Other(code: nat)

  datatype Result<T> = Success(value: T) | Failure(error: Error)

  /** What read_inode finds; the text of a link may be unreadable, and has `size` characters if it is not. */
  datatype Node = Directory | Link(size: nat, text: Result<seq<Char>>) | Plain

  /** `maxName` is MAXNAMLEN, 255 for ext2 and 14 for Minix; `root` the inode of the root, 2 and 1. */
  datatype Tree = Tree(inode: nat -> Result<Node>, search: (nat, seq<Char>) -> Result<nat>, maxName: nat, root: nat)

  ghost predicate TreeOk(t: Tree) {
    forall i :: t.inode(i).Success? && t.inode(i).value.Link? && t.inode(i).value.text.Success? ==>
      |t.inode(i).value.text.value| == t.inode(i).value.size
  }

  /** Where the first null from character `i` on is, or the end. */
  function NulAt(s: seq<Char>, i: nat): (r: nat)
    requires i <= |s|
    ensures i <= r <= |s| && (r < |s| ==> s[r] == NUL)
    decreases |s| - i
  {
    if i == |s| || s[i] == NUL then i else NulAt(s, i + 1)
  }

  lemma {:induction false} NoNulBefore(s: seq<Char>, i: nat)
    requires i <= |s|
    ensures NUL !in s[i..NulAt(s, i)]
    decreases |s| - i
  {
    if i < |s| && s[i] != NUL {
      NoNulBefore(s, i + 1);
      assert s[i..NulAt(s, i)] == [s[i]] + s[i + 1..NulAt(s, i + 1)];
    }
  }

  /** The string a C program sees. */
  function CString(s: seq<Char>): seq<Char> { s[..NulAt(s, 0)] }

  /** Where the slashes from character `i` on end. */
  function Slashes(p: seq<Char>, i: nat): (r: nat)
    requires i <= |p|
    ensures i <= r <= |p| && (r < |p| ==> p[r] != SLASH)
    decreases |p| - i
  {
    if i < |p| && p[i] == SLASH then Slashes(p, i + 1) else i
  }

  /** The length of the component at the start of a path, from its `i`-th character on. */
  function Scan(p: seq<Char>, i: nat, maxName: nat): (r: Result<nat>)
    requires i <= |p|
    ensures r.Success? ==> i <= r.value <= |p| && (r.value < |p| ==> p[r.value] == SLASH)
    decreases |p| - i
  {
    if i == |p| || p[i] == SLASH then Success(i)
    else if i > maxName then Failure(NameTooLong)
    else if p[i] >= 0x80 then Failure(InvalidParameter)
    else Scan(p, i + 1, maxName)
  }

  /** A component of 7-bit characters is accepted exactly if it has at most one character more than the limit. */
  lemma ComponentLimit(w: seq<Char>, rest: seq<Char>, maxName: nat)
    requires SLASH !in w && (forall c :: c in w ==> c < 0x80) && (rest == [] || rest[0] == SLASH)
    ensures Scan(w + rest, 0, maxName) == if |w| <= maxName + 1 then Success(|w|) else Failure(NameTooLong)
  {
    ComponentFrom(w, rest, 0, maxName);
  }

  lemma {:induction false} ComponentFrom(w: seq<Char>, rest: seq<Char>, i: nat, maxName: nat)
    requires SLASH !in w && (forall c :: c in w ==> c < 0x80) && (rest == [] || rest[0] == SLASH)
    requires i <= |w| && i <= maxName + 1
    ensures Scan(w + rest, i, maxName) == if |w| <= maxName + 1 then Success(|w|) else Failure(NameTooLong)
    decreases |w| - i
  {
    if i < |w| {
      assert (w + rest)[i] == w[i] && w[i] in w;
      if i <= maxName {
        ComponentFrom(w, rest, i + 1, maxName);
      }
    }
  }

  /** Where a lookup ends: the inode, and how many links have been followed. */
  datatype Place = Place(ino: nat, node: Node, links: nat)

  /** The first component of a path and what follows it, which starts with a slash unless it is empty. */
  datatype Head = Head(name: seq<Char>, rest: seq<Char>)

  function Split(path: seq<Char>, maxName: nat): (r: Result<Head>)
    requires path != []
    ensures r.Success? ==> |r.value.rest| < |path| && (r.value.rest != [] ==> r.value.rest[0] == SLASH)
  {
    var p := path[Slashes(path, 0)..];
    match Scan(p, 0, maxName)
    case Failure(e) => Failure(e)
    case Success(len) =>
      Success(Head(p[..len], p[len..]))
  }

  /** The child of directory `cur` with the given name. */
  function Child(t: Tree, cur: nat, name: seq<Char>): Result<Place> {
    match t.search(cur, name)
    case Failure(e) => Failure(e)
    case Success(i) => At(t, i, 0)
  }

  function At(t: Tree, i: nat, links: nat): Result<Place> {
    match t.inode(i)
    case Failure(e) => Failure(e)
    case Success(nd) => Success(Place(i, nd, links))
  }

  /** What a link leaves to be looked up: its text and the rest of the path, if they fit the buffer. */
  function Spliced(nd: Node, rest: seq<Char>, links: nat): (r: Result<seq<Char>>)
    requires nd.Link?
    ensures r.Success? ==> links < MAXSYMLINKS
  {
    if nd.size + |rest| + 1 >= MAXPATHLEN - 1 then Failure(PathTooLong)
    else if links + 1 > MAXSYMLINKS then Failure(SymlinkLoop)
    else match nd.text
      case Failure(e) => Failure(e)
      case Success(text) => if |text| == nd.size then Success(CString(text + rest)) else Failure(Other(0))
  }

  /** What is left to do: a path to look up from a place. */
  datatype Onward = Onward(at: Place, path: seq<Char>)

  /** A path starts from the directory at hand, or from the root. */
  function From(t: Tree, cur: nat, path: seq<Char>, links: nat): Result<Onward> {
    match At(t, if path != [] && path[0] == SLASH then t.root else cur, links)
    case Failure(e) => Failure(e)
    case Success(o) => Success(Onward(o, path))
  }

  /** A link is replaced by its text, looked up from the directory `cur` it is in. */
  function Follow(t: Tree, cur: nat, nd: Node, rest: seq<Char>, links: nat): (r: Result<Onward>)
    requires nd.Link?
    ensures r.Success? ==> links < r.value.at.links <= MAXSYMLINKS
  {
    match Spliced(nd, rest, links)
    case Failure(e) => Failure(e)
    case Success(path) => From(t, cur, path, links + 1)
  }

  /** The first component of a path, looked up, and the rest. */
  datatype Found = Found(child: Place, rest: seq<Char>)

  function Look(t: Tree, p: Place, path: seq<Char>): (r: Result<Found>)
    requires path != []
    ensures r.Success? ==> |r.value.rest| < |path|
  {
    if !p.node.Directory? then Failure(NotDirectory)
    else match Split(path, t.maxName)
      case Failure(e) => Failure(e)
      case Success(h) =>
        match Child(t, p.ino, h.name)
        case Failure(e) => Failure(e)
        case Success(c) => Success(Found(c, h.rest))
  }

  /** One component. */
  function Step(t: Tree, p: Place, path: seq<Char>): (r: Result<Onward>)
    requires path != []
    ensures r.Success? ==> var o := r.value;
              (o.at.links == p.links && |o.path| < |path|) || p.links < o.at.links <= MAXSYMLINKS
  {
    match Look(t, p, path)
    case Failure(e) => Failure(e)
    case Success(f) => StepTo(t, p, f)
  }

  function StepTo(t: Tree, p: Place, f: Found): (r: Result<Onward>)
    ensures r.Success? ==> var o := r.value; (o.at.links == p.links && o.path == f.rest) || p.links < o.at.links <= MAXSYMLINKS
  {
    if f.child.node.Link? then Follow(t, p.ino, f.child.node, f.rest, p.links)
    else Success(Onward(f.child.(links := p.links), f.rest))
  }

  /** The lookup of `path` from `p`, a component at a time. */
  function Resolve(t: Tree, p: Place, path: seq<Char>): (r: Result<Place>)
    ensures r.Success? ==> p.links <= r.value.links
    decreases MAXSYMLINKS - p.links, |path|
  {
    if path == [] then Success(p)
    else match Step(t, p, path)
      case Failure(e) => Failure(e)
      case Success(o) => Resolve(t, o.at, o.path)
  }

  /** ext2fs_open_file and minixfs_open_file: from the root directory, unless the path is empty. */
  function Open(t: Tree, path: seq<Char>): Result<Place> {
    if path == [] then Failure(NoEntry)
    else match At(t, t.root, 0)
      case Failure(e) => Failure(e)
      case Success(root) => Resolve(t, root, path)
  }
}
