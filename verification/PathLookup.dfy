/** ext2fs_open_file: path lookup in place, in a buffer whose unparsed end is moved along to make room
    for the text of each link (ext2fs.c:845-1003, ovbcopy in file_system.c:287-302). */
module PathLookup {
  import opened Bytes
  import opened PathNames

  const PATH_MAX: nat := 1024

  /** The string that starts at index `at` of the buffer. */
  ghost predicate Holds(buf: seq<Char>, at: nat, s: seq<Char>) {
    at + |s| < |buf| && buf[at..at + |s|] == s && buf[at + |s|] == NUL && NUL !in s
  }

  lemma HoldsRest(buf: seq<Char>, at: nat, s: seq<Char>, k: nat)
    requires Holds(buf, at, s) && k <= |s|
    ensures Holds(buf, at + k, s[k..])
    ensures buf[at + k] == if k < |s| then s[k] else NUL
  {
    assert buf[at..at + |s|][k..] == buf[at + k..at + |s|];
    if k < |s| {
      assert buf[at..at + |s|][k] == s[k];
    }
  }

  /** What stands at the front of the buffer, up to the first null, is the string it holds. */
  lemma FrontHolds(buf: seq<Char>, s: seq<Char>)
    requires |s| < |buf| && buf[..|s| + 1] == s + [NUL]
    ensures Holds(buf, 0, CString(s))
  {
    var c := CString(s);
    NoNulBefore(s, 0);
    assert c == s[0..|c|];
    assert buf[..|s|] == buf[..|s| + 1][..|s|] == s;
    assert buf[0..|c|] == s[..|c|] == c;
    assert buf[|c|] == (s + [NUL])[|c|];
  }

  /** memcpy, from left to right: right if the ranges are apart or the characters go to the left. */
  method Memcpy(buf: array<Char>, from: nat, to: nat, bytes: nat)
    requires from + bytes <= buf.Length && to + bytes <= buf.Length && (to <= from || from + bytes <= to)
    modifies buf
    ensures forall j :: 0 <= j < buf.Length ==> buf[j] == old(if to <= j < to + bytes then buf[from + (j - to)] else buf[j])
  {
    var i := 0;
    while i < bytes
      invariant 0 <= i <= bytes
      invariant forall j :: 0 <= j < buf.Length ==> buf[j] == old(if to <= j < to + i then buf[from + (j - to)] else buf[j])
    {
      buf[to + i] := buf[from + i];
      i := i + 1;
    }
  }

  /** Moves `bytes` characters within a buffer, even if where they are and where they go overlap; the C
      version takes memcpy to go from left to right. */
  method Ovbcopy(buf: array<Char>, from: nat, to: nat, bytes: nat)
    requires from + bytes <= buf.Length && to + bytes <= buf.Length
    modifies buf
    ensures forall j :: 0 <= j < buf.Length ==> buf[j] == old(if to <= j < to + bytes then buf[from + (j - to)] else buf[j])
  {
    if from + bytes <= to || to + bytes <= from || to == from {
      Memcpy(buf, from, to, bytes);
    } else if from > to {
      Memcpy(buf, from, to, bytes);
    } else {
      var left := bytes;
      while left > 0
        invariant 0 <= left <= bytes
        invariant forall j :: 0 <= j < buf.Length ==> buf[j] == old(if to + left <= j < to + bytes then buf[from + (j - to)] else buf[j])
      {
        left := left - 1;
        buf[to + left] := buf[from + left];
      }
    }
  }

  /** strcpy or memcpy to the front of the buffer. */
  method PutFront(buf: array<Char>, s: seq<Char>)
    requires |s| <= buf.Length
    modifies buf
    ensures buf[..|s|] == s && forall j :: |s| <= j < buf.Length ==> buf[j] == old(buf[j])
  {
    var i := 0;
    while i < |s|
      invariant 0 <= i <= |s| && buf[..i] == s[..i]
      invariant forall j :: i <= j < buf.Length ==> buf[j] == old(buf[j])
    {
      buf[i] := s[i];
      assert buf[..i + 1] == buf[..i] + [s[i]];
      i := i + 1;
    }
  }

  /** The slashes before a component. */
  method Skip(buf: array<Char>, cp: nat, ghost path: seq<Char>) returns (component: nat)
    requires Holds(buf[..], cp, path)
    ensures component == cp + Slashes(path, 0) && Holds(buf[..], component, path[Slashes(path, 0)..])
  {
    component := cp;
    HoldsRest(buf[..], cp, path, 0);
    while buf[component] == SLASH
      invariant cp <= component <= cp + |path| && Slashes(path, component - cp) == Slashes(path, 0)
      invariant component < buf.Length && buf[component] == if component - cp < |path| then path[component - cp] else NUL
      decreases cp + |path| - component
    {
      component := component + 1;
      HoldsRest(buf[..], cp, path, component - cp);
    }
    assert Slashes(path, component - cp) == component - cp;
    HoldsRest(buf[..], cp, path, Slashes(path, 0));
  }

  /** The end of the component, or why it is refused. */
  method FindEnd(buf: array<Char>, component: nat, maxName: nat, ghost p: seq<Char>) returns (r: Result<nat>)
    requires Holds(buf[..], component, p)
    ensures match r
            case Failure(e) => Scan(p, 0, maxName) == Failure(e)
            case Success(cp) => component <= cp && Scan(p, 0, maxName) == Success(cp - component)
  {
    var len := 0;
    var cp := component;
    HoldsRest(buf[..], component, p, 0);
    while buf[cp] != NUL && buf[cp] != SLASH
      invariant 0 <= len <= |p| && cp == component + len && Scan(p, len, maxName) == Scan(p, 0, maxName)
      invariant buf[cp] == if len < |p| then p[len] else NUL
      decreases |p| - len
    {
      if len > maxName {
        return Failure(NameTooLong);
      }
      if buf[cp] >= 0x80 {
        return Failure(InvalidParameter);
      }
      len := len + 1;
      cp := cp + 1;
      HoldsRest(buf[..], component, p, len);
    }
    return Success(cp);
  }

  /** The first component: `component` to `end` is its name, and what follows starts at `end`. */
  ghost predicate Parted(buf: seq<Char>, component: nat, end: nat, path: seq<Char>, maxName: nat)
    requires path != []
  {
    && component <= end < |buf| && Split(path, maxName).Success?
    && buf[component..end] == Split(path, maxName).value.name && Holds(buf, end, Split(path, maxName).value.rest)
  }

  lemma PartedAt(buf: seq<Char>, component: nat, len: nat, path: seq<Char>, maxName: nat)
    requires path != [] && Holds(buf, component, path[Slashes(path, 0)..]) && Scan(path[Slashes(path, 0)..], 0, maxName) == Success(len)
    ensures Parted(buf, component, component + len, path, maxName)
  {
    var p := path[Slashes(path, 0)..];
    HoldsRest(buf, component, p, len);
    assert buf[component..component + len] == buf[component..component + |p|][..len];
  }

  method NextComponent(buf: array<Char>, cp: nat, maxName: nat, ghost path: seq<Char>) returns (r: Result<(nat, nat)>)
    requires Holds(buf[..], cp, path) && path != []
    ensures match r
            case Failure(e) => Split(path, maxName) == Failure(e)
            case Success((component, end)) => Parted(buf[..], component, end, path, maxName)
  {
    var component := Skip(buf, cp, path);
    var e := FindEnd(buf, component, maxName, path[Slashes(path, 0)..]);
    match e
    case Failure(why) => return Failure(why);
    case Success(end) =>
      PartedAt(buf[..], component, end - component, path, maxName);
      return Success((component, end));
  }

  /** Makes room for the text of a link before the rest of the path, and puts it there. */
  method Splice(buf: array<Char>, cp: nat, nd: Node, ghost rest: seq<Char>, links: nat) returns (e: Result<()>)
    requires Holds(buf[..], cp, rest) && nd.Link? && buf.Length == PATH_MAX + 1
    requires nd.text.Success? ==> |nd.text.value| == nd.size
    modifies buf
    ensures match Spliced(nd, rest, links)
            case Failure(why) => e == Failure(why)
            case Success(path) => e.Success? && Holds(buf[..], 0, path)
  {
    var len := StrLen(buf, cp, rest);
    len := len + 1;
    if nd.size + len >= MAXPATHLEN - 1 {
      return Failure(PathTooLong);
    }
    if links + 1 > MAXSYMLINKS {
      return Failure(SymlinkLoop);
    }
    ghost var was := buf[..];
    Ovbcopy(buf, cp, nd.size, len);
    MovedRest(was, buf[..], cp, nd.size, rest);
    match nd.text
    case Failure(why) => return Failure(why);
    case Success(text) =>
      PutText(buf, text, rest);
      return Success(());
  }

  /** The text of a link goes to the front of the buffer, before the rest. */
  method PutText(buf: array<Char>, text: seq<Char>, ghost rest: seq<Char>)
    requires |text| + |rest| < buf.Length && buf[|text|..|text| + |rest| + 1] == rest + [NUL]
    modifies buf
    ensures Holds(buf[..], 0, CString(text + rest))
  {
    ghost var moved := buf[..];
    PutFront(buf, text);
    assert moved[|text|..|text| + |rest| + 1] == rest + [NUL];
    JoinFront(moved, buf[..], text, rest);
    FrontHolds(buf[..], text + rest);
  }

  lemma MovedRest(before: seq<Char>, now: seq<Char>, cp: nat, to: nat, rest: seq<Char>)
    requires Holds(before, cp, rest) && to + |rest| < |now| == |before|
    requires forall j :: to <= j <= to + |rest| ==> now[j] == before[cp + (j - to)]
    ensures now[to..to + |rest| + 1] == rest + [NUL]
  {
    forall j | 0 <= j < |rest| + 1 ensures now[to..to + |rest| + 1][j] == (rest + [NUL])[j] {
      assert now[to + j] == before[cp + j];
      HoldsRest(before, cp, rest, j);
    }
  }

  lemma JoinFront(before: seq<Char>, now: seq<Char>, text: seq<Char>, rest: seq<Char>)
    requires |text| + |rest| < |now| == |before| && before[|text|..|text| + |rest| + 1] == rest + [NUL]
    requires now[..|text|] == text && forall j :: |text| <= j < |now| ==> now[j] == before[j]
    ensures now[..|text + rest| + 1] == (text + rest) + [NUL]
  {
    forall j | 0 <= j < |text + rest| + 1 ensures now[j] == ((text + rest) + [NUL])[j] {
      if j < |text| {
        assert now[j] == now[..|text|][j];
      } else {
        assert before[|text|..|text| + |rest| + 1][j - |text|] == before[j];
      }
    }
  }

  method StrLen(buf: array<Char>, at: nat, ghost s: seq<Char>) returns (len: nat)
    requires Holds(buf[..], at, s)
    ensures len == |s|
  {
    len := 0;
    HoldsRest(buf[..], at, s, 0);
    while buf[at + len] != NUL
      invariant len <= |s| && buf[at + len] == if len < |s| then s[len] else NUL
      decreases |s| - len
    {
      len := len + 1;
      HoldsRest(buf[..], at, s, len);
    }
  }

  /** The lookup in place finds what the lookup of the string finds: it stays within the buffer, and
      comes to its end because each link followed is one of at most eight, and each other component
      leaves less of the path. */
  method OpenFile(t: Tree, path: seq<Char>) returns (r: Result<Place>)
    requires TreeOk(t) && NUL !in path && |path| <= PATH_MAX
    ensures r == Open(t, path)
  {
    if path == [] {
      return Failure(NoEntry);
    }
    var buf := new Char[PATH_MAX + 1](_ => NUL);
    PutFront(buf, path);
    ghost var rest := path;
    assert Holds(buf[..], 0, path);
    match t.inode(t.root)
    case Failure(e) => return Failure(e);
    case Success(root) =>
      var cp, at := 0, Place(t.root, root, 0);
      HoldsRest(buf[..], cp, rest, 0);
      while buf[cp] != NUL
        invariant Holds(buf[..], cp, rest) && buf[cp] == (if rest == [] then NUL else rest[0]) && buf.Length == PATH_MAX + 1
        invariant Resolve(t, at, rest) == Open(t, path)
        decreases MAXSYMLINKS - at.links, |rest|
      {
        var step, place := LookupStep(t, buf, cp, at, rest);
        match step
        case Failure(e) => return Failure(e);
        case Success(next) =>
          rest := Step(t, at, rest).value.path;
          cp, at := next, place;
          HoldsRest(buf[..], cp, rest, 0);
      }
      return Success(at);
  }

  /** A directory is searched for the name in the buffer, ended by a null for the time being. */
  method Search(t: Tree, buf: array<Char>, start: nat, end: nat, p: Place) returns (c: Result<Place>)
    requires start <= end < buf.Length
    modifies buf
    ensures c == Child(t, p.ino, old(buf[start..end])) && (c.Success? ==> buf[..] == old(buf[..]))
  {
    var was := buf[end];
    buf[end] := NUL;
    assert buf[start..end] == old(buf[start..end]);
    var found := t.search(p.ino, buf[start..end]);
    match found
    case Failure(e) => return Failure(e);
    case Success(i) =>
      buf[end] := was;
      assert buf[..] == old(buf[..]);
      var inode := t.inode(i);
      match inode
      case Failure(e) => return Failure(e);
      case Success(nd) => return Success(Place(i, nd, 0));
  }

  /** One component: where the rest starts in the buffer, and the place to look it up from. */
  method LookupStep(t: Tree, buf: array<Char>, cp: nat, p: Place, ghost rest: seq<Char>) returns (r: Result<nat>, place: Place)
    requires TreeOk(t) && Holds(buf[..], cp, rest) && rest != [] && buf.Length == PATH_MAX + 1
    modifies buf
    ensures match r
            case Failure(e) => Step(t, p, rest) == Failure(e)
            case Success(next) =>
              Step(t, p, rest).Success? && Step(t, p, rest).value.at == place && Holds(buf[..], next, Step(t, p, rest).value.path)
  {
    place := p;
    if !p.node.Directory? {
      return Failure(NotDirectory), place;
    }
    var component := NextComponent(buf, cp, t.maxName, rest);
    match component
    case Failure(e) => return Failure(e), place;
    case Success((start, end)) =>
      ghost var h := Split(rest, t.maxName).value;
      assert buf[..][start..end] == buf[start..end];
      var child := Search(t, buf, start, end, p);
      match child
      case Failure(e) => return Failure(e), place;
      case Success(c) =>
        if !c.node.Link? {
          return Success(end), c.(links := p.links);
        }
        r, place := FollowLink(t, buf, end, p, c.node, h.rest);
  }

  /** A link: the lookup restarts at the front of the buffer, from the directory the link is in or, if
      the buffer now starts with a slash, from the root. */
  method FollowLink(t: Tree, buf: array<Char>, cp: nat, p: Place, nd: Node, ghost rest: seq<Char>) returns (r: Result<nat>, place: Place)
    requires Holds(buf[..], cp, rest) && nd.Link? && buf.Length == PATH_MAX + 1 && (nd.text.Success? ==> |nd.text.value| == nd.size)
    modifies buf
    ensures var o := Follow(t, p.ino, nd, rest, p.links);
            match r
            case Failure(e) => o == Failure(e)
            case Success(next) => o.Success? && o.value.at == place && Holds(buf[..], next, o.value.path)
  {
    place := p;
    var e := Splice(buf, cp, nd, rest, p.links);
    match e
    case Failure(why) => return Failure(why), place;
    case Success(_) =>
      ghost var path := Spliced(nd, rest, p.links).value;
      HoldsRest(buf[..], 0, path, 0);
      var start := if buf[0] != SLASH then p.ino else t.root;
      var inode := t.inode(start);
      match inode
      case Failure(why) => return Failure(why), place;
      case Success(node) => return Success(0), Place(start, node, p.links + 1);
  }
}
