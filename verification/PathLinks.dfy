/** The lookup that splices the text of a link before the rest of the path leads where a recursive
    resolver leads, which first looks up the text of the link by itself (ext2fs.c:891-1003). */
module PathLinks {
  import opened Bytes
  import opened PathNames

  /** A path that does not end in a slash. */
  ghost predicate Whole(a: seq<Char>) { a != [] && NUL !in a && a[|a| - 1] != SLASH }

  /** What may follow a component. */
  ghost predicate Joins(b: seq<Char>) { NUL !in b && (b != [] ==> b[0] == SLASH) }

  ghost predicate WholeLinks(t: Tree) {
    forall i :: t.inode(i).Success? && t.inode(i).value.Link? && t.inode(i).value.text.Success? ==>
      Whole(t.inode(i).value.text.value)
  }

  /** The lookup of `b` from where another has ended. */
  function Then(t: Tree, r: Result<Place>, b: seq<Char>): Result<Place> {
    match r
    case Failure(e) => Failure(e)
    case Success(q) => Resolve(t, q, b)
  }

  // ---- Joining two paths ----

  lemma {:induction false} SlashesJoin(a: seq<Char>, b: seq<Char>, i: nat)
    requires Whole(a) && i < |a|
    ensures Slashes(a + b, i) == Slashes(a, i) < |a|
    decreases |a| - i
  {
    if a[i] == SLASH {
      SlashesJoin(a, b, i + 1);
    }
  }

  lemma {:induction false} ScanJoin(a: seq<Char>, b: seq<Char>, i: nat, m: nat)
    requires Joins(b) && i <= |a|
    ensures Scan(a + b, i, m) == Scan(a, i, m)
    decreases |a| - i
  {
    if i < |a| {
      ScanJoin(a, b, i + 1, m);
    }
  }

  lemma SplitJoin(a: seq<Char>, b: seq<Char>, m: nat)
    requires Whole(a) && Joins(b)
    ensures Split(a, m).Failure? ==> Split(a + b, m) == Failure(Split(a, m).error)
    ensures Split(a, m).Success? ==>
      var h := Split(a, m).value;
      Split(a + b, m) == Success(Head(h.name, h.rest + b)) && (h.rest == [] || Whole(h.rest)) && Joins(h.rest + b)
  {
    SlashesJoin(a, b, 0);
    var k := Slashes(a, 0);
    SuffixJoin(a, b, k);
    ScanJoin(a[k..], b, 0, m);
    if Scan(a[k..], 0, m).Success? {
      var len := Scan(a[k..], 0, m).value;
      SuffixJoin(a[k..], b, len);
      SuffixWhole(a, k + len);
    }
  }

  lemma SuffixJoin(a: seq<Char>, b: seq<Char>, k: nat)
    requires k <= |a|
    ensures (a + b)[k..] == a[k..] + b && (a + b)[..k] == a[..k]
  {
  }

  lemma SuffixWhole(a: seq<Char>, k: nat)
    requires Whole(a) && k <= |a|
    ensures a[k..] == [] || Whole(a[k..])
    ensures forall j: nat :: j <= k ==> a[j..][k - j..] == a[k..]
  {
  }

  lemma {:induction false} NoNullFrom(s: seq<Char>, i: nat)
    requires NUL !in s && i <= |s|
    ensures NulAt(s, i) == |s|
    decreases |s| - i
  {
    if i < |s| {
      assert s[i] in s;
      NoNullFrom(s, i + 1);
    }
  }

  lemma NoNull(s: seq<Char>)
    requires NUL !in s
    ensures CString(s) == s
  {
    NoNullFrom(s, 0);
  }

  lemma SplicedJoin(nd: Node, rest: seq<Char>, b: seq<Char>, links: nat)
    requires nd.Link? && (nd.text.Success? ==> Whole(nd.text.value)) && (rest == [] || Whole(rest)) && NUL !in b
    ensures var r, j := Spliced(nd, rest, links), Spliced(nd, rest + b, links);
            j == Failure(PathTooLong) || (if r.Failure? then j == r else j == Success(r.value + b) && Whole(r.value))
  {
    if nd.text.Success? {
      var text := nd.text.value;
      NoNull(text + rest);
      NoNull(text + (rest + b));
      assert text + (rest + b) == (text + rest) + b;
    }
  }

  lemma FollowJoin(t: Tree, cur: nat, nd: Node, rest: seq<Char>, b: seq<Char>, links: nat)
    requires nd.Link? && (nd.text.Success? ==> Whole(nd.text.value)) && (rest == [] || Whole(rest)) && NUL !in b
    ensures JoinedOr(Follow(t, cur, nd, rest, links), Follow(t, cur, nd, rest + b, links), b)
  {
    SplicedJoin(nd, rest, b, links);
  }

  /** A step of the joined path does what a step of its first part does, unless the buffer is too short. */
  ghost predicate JoinedOr(r: Result<Onward>, j: Result<Onward>, b: seq<Char>) {
    j == Failure(PathTooLong) || (if r.Failure? then j == r
                                  else j == Success(Onward(r.value.at, r.value.path + b)) && (r.value.path == [] || Whole(r.value.path)))
  }

  lemma LookJoin(t: Tree, p: Place, a: seq<Char>, b: seq<Char>)
    requires Whole(a) && Joins(b)
    ensures var r, j := Look(t, p, a), Look(t, p, a + b);
            if r.Failure? then j == r
            else j == Success(Found(r.value.child, r.value.rest + b)) && (r.value.rest == [] || Whole(r.value.rest)) && Joins(r.value.rest + b)
  {
    SplitJoin(a, b, t.maxName);
  }

  lemma LinkWhole(t: Tree, p: Place, path: seq<Char>)
    requires WholeLinks(t) && path != [] && Look(t, p, path).Success?
    ensures var nd := Look(t, p, path).value.child.node; nd.Link? && nd.text.Success? ==> Whole(nd.text.value)
    ensures TreeOk(t) ==> var nd := Look(t, p, path).value.child.node; nd.Link? && nd.text.Success? ==> |nd.text.value| == nd.size
  {
  }

  lemma StepToJoin(t: Tree, p: Place, f: Found, b: seq<Char>)
    requires f.child.node.Link? && f.child.node.text.Success? ==> Whole(f.child.node.text.value)
    requires (f.rest == [] || Whole(f.rest)) && NUL !in b
    ensures JoinedOr(StepTo(t, p, f), StepTo(t, p, f.(rest := f.rest + b)), b)
  {
    if f.child.node.Link? {
      FollowJoin(t, p.ino, f.child.node, f.rest, b, p.links);
    }
  }

  lemma StepJoin(t: Tree, p: Place, a: seq<Char>, b: seq<Char>)
    requires WholeLinks(t) && Whole(a) && Joins(b)
    ensures JoinedOr(Step(t, p, a), Step(t, p, a + b), b)
  {
    LookJoin(t, p, a, b);
    if Look(t, p, a).Success? {
      LinkWhole(t, p, a);
      StepToJoin(t, p, Look(t, p, a).value, b);
    }
  }

  /** Looking up two paths joined is looking up the second from where the first leads, if everything
      fits the buffer on the way. */
  lemma {:induction false} ResolveJoin(t: Tree, p: Place, a: seq<Char>, b: seq<Char>)
    requires WholeLinks(t) && (a == [] || Whole(a)) && Joins(b)
    ensures Resolve(t, p, a + b) == Failure(PathTooLong) || Resolve(t, p, a + b) == Then(t, Resolve(t, p, a), b)
    decreases MAXSYMLINKS - p.links, |a|
  {
    if a == [] {
      assert a + b == b;
    } else {
      StepJoin(t, p, a, b);
      var r := Step(t, p, a);
      if r.Success? {
        ResolveJoin(t, r.value.at, r.value.path, b);
      }
    }
  }

  // ---- The recursive resolver ----

  /** A link leads where its own text leads. */
  function Nested(t: Tree, p: Place, path: seq<Char>): (r: Result<Place>)
    ensures r.Success? ==> p.links <= r.value.links
    decreases MAXSYMLINKS - p.links, |path|
  {
    if path == [] then Success(p)
    else match Look(t, p, path)
      case Failure(e) => Failure(e)
      case Success(f) =>
        if !f.child.node.Link? then Nested(t, f.child.(links := p.links), f.rest)
        else match Text(t, p, f.child.node)
          case Failure(e) => Failure(e)
          case Success(o) =>
            match Nested(t, o.at, o.path)
            case Failure(e) => Failure(e)
            case Success(q) => Nested(t, q, f.rest)
  }

  /** The text of a link found from `p`, and where its lookup starts. */
  function Text(t: Tree, p: Place, nd: Node): (r: Result<Onward>)
    requires nd.Link?
    ensures r.Success? ==> p.links < r.value.at.links <= MAXSYMLINKS
  {
    if p.links + 1 > MAXSYMLINKS then Failure(SymlinkLoop)
    else match nd.text
      case Failure(e) => Failure(e)
      case Success(s) => From(t, p.ino, s, p.links + 1)
  }

  /** The lookup of what a link leaves, and that of its text and then of the rest of the path. */
  function Onwards(t: Tree, o: Result<Onward>): Result<Place> {
    match o
    case Failure(e) => Failure(e)
    case Success(n) => Resolve(t, n.at, n.path)
  }

  function AfterLink(t: Tree, o: Result<Onward>, rest: seq<Char>): Result<Place> {
    match o
    case Failure(e) => Failure(e)
    case Success(n) => ThenNested(t, Nested(t, n.at, n.path), rest)
  }

  function ThenNested(t: Tree, r: Result<Place>, rest: seq<Char>): Result<Place> {
    match r
    case Failure(e) => Failure(e)
    case Success(q) => Nested(t, q, rest)
  }

  lemma TextJoin(t: Tree, p: Place, nd: Node, rest: seq<Char>)
    requires nd.Link? && NUL !in rest && (nd.text.Success? ==> Whole(nd.text.value) && |nd.text.value| == nd.size)
    ensures var o, j := Text(t, p, nd), Follow(t, p.ino, nd, rest, p.links);
            j == Failure(PathTooLong) || (if o.Failure? then j == Failure(o.error)
                                          else j == Success(Onward(o.value.at, o.value.path + rest)) && Whole(o.value.path))
  {
    if nd.text.Success? {
      NoNull(nd.text.value + rest);
    }
  }

  lemma ResolveIs(t: Tree, p: Place, path: seq<Char>)
    requires path != []
    ensures Resolve(t, p, path) == Onwards(t, Step(t, p, path))
  {
  }

  lemma NestedIs(t: Tree, p: Place, path: seq<Char>, f: Found)
    requires path != [] && Look(t, p, path) == Success(f)
    ensures Nested(t, p, path) == if f.child.node.Link? then AfterLink(t, Text(t, p, f.child.node), f.rest)
                                  else Nested(t, f.child.(links := p.links), f.rest)
  {
  }

  /** The lookup in the buffer agrees with the recursive resolver, unless the buffer is too short. */
  lemma {:induction false} NestedAgrees(t: Tree, p: Place, path: seq<Char>)
    requires TreeOk(t) && WholeLinks(t) && (path == [] || Whole(path))
    ensures Resolve(t, p, path) == Failure(PathTooLong) || Resolve(t, p, path) == Nested(t, p, path)
    decreases MAXSYMLINKS - p.links, |path| + 1
  {
    if path != [] {
      ResolveIs(t, p, path);
      var r := Look(t, p, path);
      if r.Success? {
        var f := r.value;
        LookJoin(t, p, path, []);
        assert f.rest + [] == f.rest;
        NestedIs(t, p, path, f);
        if f.child.node.Link? {
          LinkWhole(t, p, path);
          TextJoin(t, p, f.child.node, f.rest);
          var o := Text(t, p, f.child.node);
          if o.Success? {
            NestedLink(t, p, o.value, f.rest);
          }
        } else {
          NestedAgrees(t, f.child.(links := p.links), f.rest);
        }
      }
    }
  }

  lemma {:induction false} NestedLink(t: Tree, p: Place, o: Onward, rest: seq<Char>)
    requires TreeOk(t) && WholeLinks(t) && (rest == [] || Whole(rest)) && Joins(rest) && Whole(o.path)
    requires p.links < o.at.links <= MAXSYMLINKS
    ensures Resolve(t, o.at, o.path + rest) == Failure(PathTooLong) ||
            Resolve(t, o.at, o.path + rest) == AfterLink(t, Success(o), rest)
    decreases MAXSYMLINKS - p.links, 0
  {
    ResolveJoin(t, o.at, o.path, rest);
    NestedAgrees(t, o.at, o.path);
    if Resolve(t, o.at, o.path).Success? {
      NestedAgrees(t, Resolve(t, o.at, o.path).value, rest);
    }
  }

  // ---- A slash at the end ----

  /** A path that ends in a slash looks up the empty name, so it leads nowhere in a file system without
      entries of that name, even if the path before the slash is that of a directory. */
  lemma TrailingSlash(t: Tree, p: Place, a: seq<Char>)
    requires WholeLinks(t) && (a == [] || Whole(a)) && forall i :: t.search(i, []).Failure?
    ensures Resolve(t, p, a + [SLASH]).Failure?
  {
    ResolveJoin(t, p, a, [SLASH]);
    var r := Resolve(t, p, a);
    if r.Success? && r.value.node.Directory? {
      assert Slashes([SLASH], 1) == 1 && Slashes([SLASH], 0) == 1;
      assert [SLASH][1..] == [] && Scan([], 0, t.maxName) == Success(0);
      assert Split([SLASH], t.maxName) == Success(Head([], []));
      assert Child(t, r.value.ino, []).Failure?;
    }
  }

  // ---- Texts that are not whole ----

  const A: Char := 97
  const B: Char := 98
  const L: Char := 108

  /** Characters that a path may have. */
  ghost predicate Clean(s: seq<Char>) { NUL !in s && forall c :: c in s ==> c < 0x80 }

  /** The name of a link whose text does not start with that name. */
  function LinkName(text: seq<Char>): Char { if text != [] && text[0] == L then A else L }

  const ROOT: nat := 2
  const HERE: nat := 7

  /** A link in directory 7, and under every other name a directory: in the root number 5, elsewhere 4. */
  function Bush(text: seq<Char>): Tree {
    Tree((i: nat) => if i == 3 then Success(Link(|text|, Success(text))) else if i in {2, 4, 5, 7} then Success(Directory) else Failure(NoEntry),
         (i: nat, name: seq<Char>) => if name == [] then Failure(NoEntry) else if i == HERE && name == [LinkName(text)] then Success(3)
                                      else if i == ROOT then Success(5) else Success(4),
         |text| + 2, ROOT)
  }

  /** A directory of that tree, after one link. */
  function Dir(d: nat): Place { Place(d, Directory, 1) }

  lemma {:induction false} ScanOk(p: seq<Char>, i: nat, maxName: nat)
    requires (forall c :: c in p ==> c < 0x80) && |p| <= maxName + 1 && i <= |p|
    ensures Scan(p, i, maxName).Success? && (i < |p| && p[i] != SLASH ==> Scan(p, i, maxName).value > i)
    decreases |p| - i
  {
    if i < |p| && p[i] != SLASH {
      assert p[i] in p;
      ScanOk(p, i + 1, maxName);
    }
  }

  /** The first component of a clean path: it has a name unless there are only slashes. */
  lemma SplitOk(path: seq<Char>, maxName: nat)
    requires Clean(path) && path != [] && |path| <= maxName + 1
    ensures Split(path, maxName).Success?
    ensures var h := Split(path, maxName).value;
            && |h.rest| < |path| && Clean(h.rest) && (h.rest != [] ==> h.rest[0] == SLASH && h.rest[|h.rest| - 1] == path[|path| - 1])
            && (h.name == [] ==> h.rest == [] && path[|path| - 1] == SLASH) && (h.rest == [] && path[|path| - 1] == SLASH ==> h.name == [])
            && (path[0] != SLASH ==> h.name != [] && h.name[0] == path[0])
  {
    var k := Slashes(path, 0);
    CleanFrom(path, k);
    var p := path[k..];
    ScanOk(p, 0, maxName);
    var len := Scan(p, 0, maxName).value;
    CleanFrom(p, len);
    SlashesBefore(path, 0);
    ScanBefore(p, 0, maxName);
    assert p[len..] == path[k + len..];
  }

  lemma CleanFrom(s: seq<Char>, k: nat)
    requires Clean(s) && k <= |s|
    ensures Clean(s[k..])
  {
    assert forall c :: c in s[k..] ==> c in s;
  }

  lemma {:induction false} SlashesBefore(p: seq<Char>, i: nat)
    requires i <= |p|
    ensures forall j :: i <= j < Slashes(p, i) ==> p[j] == SLASH
    decreases |p| - i
  {
    if i < |p| && p[i] == SLASH {
      SlashesBefore(p, i + 1);
    }
  }

  lemma {:induction false} ScanBefore(p: seq<Char>, i: nat, maxName: nat)
    requires i <= |p|
    ensures Scan(p, i, maxName).Success? ==> forall j :: i <= j < Scan(p, i, maxName).value ==> p[j] != SLASH
    decreases |p| - i
  {
    if i < |p| && p[i] != SLASH && i <= maxName && p[i] < 0x80 {
      ScanBefore(p, i + 1, maxName);
    }
  }

  lemma Goes(t: Tree, p: Place, path: seq<Char>, w: seq<Char>, rest: seq<Char>, c: Place)
    requires p.node.Directory? && path != [] && Split(path, t.maxName) == Success(Head(w, rest)) && |rest| < |path|
    requires Child(t, p.ino, w) == Success(c) && !c.node.Link?
    ensures Resolve(t, p, path) == Resolve(t, c.(links := p.links), rest)
    ensures Nested(t, p, path) == Nested(t, c.(links := p.links), rest)
  {
    assert Look(t, p, path) == Success(Found(c, rest));
    ResolveIs(t, p, path);
    NestedIs(t, p, path, Found(c, rest));
  }

  lemma Leads(t: Tree, p: Place, path: seq<Char>, w: seq<Char>, rest: seq<Char>, c: Place, o: Onward, text: Onward)
    requires p.node.Directory? && path != [] && Split(path, t.maxName) == Success(Head(w, rest)) && |rest| < |path|
    requires Child(t, p.ino, w) == Success(c) && c.node.Link? && Follow(t, p.ino, c.node, rest, p.links) == Success(o)
    requires Text(t, p, c.node) == Success(text)
    ensures Resolve(t, p, path) == Resolve(t, o.at, o.path)
    ensures Nested(t, p, path) == ThenNested(t, Nested(t, text.at, text.path), rest)
  {
    assert Look(t, p, path) == Success(Found(c, rest));
    ResolveIs(t, p, path);
    NestedIs(t, p, path, Found(c, rest));
  }

  lemma EmptyName(t: Tree, p: Place, path: seq<Char>)
    requires p.node.Directory? && path != [] && t.search(p.ino, []) == Failure(NoEntry) && Split(path, t.maxName) == Success(Head([], []))
    ensures Nested(t, p, path) == Failure(NoEntry)
  {
    assert Look(t, p, path) == Failure(NoEntry);
  }

  /** The path does not go through the link. */
  ghost predicate Passes(text: seq<Char>, d: nat, path: seq<Char>) {
    d in {2, 4, 5, 7} && Clean(path) && |path| <= |text| + 3 && (d == HERE && path != [] ==> path[0] != SLASH && path[0] != LinkName(text))
  }

  /** Where one component leads in the tree. */
  function Below(d: nat): nat { if d == ROOT then 5 else 4 }

  lemma OneDown(text: seq<Char>, d: nat, path: seq<Char>)
    requires Passes(text, d, path) && path != [] && Split(path, |text| + 2).Success? && Split(path, |text| + 2).value.name != []
    ensures var rest := Split(path, |text| + 2).value.rest;
            && Resolve(Bush(text), Dir(d), path) == Resolve(Bush(text), Dir(Below(d)), rest)
            && Nested(Bush(text), Dir(d), path) == Nested(Bush(text), Dir(Below(d)), rest)
  {
    SplitOk(path, |text| + 2);
    var h := Split(path, |text| + 2).value;
    assert Child(Bush(text), d, h.name) == Success(Place(Below(d), Directory, 0));
    Goes(Bush(text), Dir(d), path, h.name, h.rest, Place(Below(d), Directory, 0));
  }

  /** A path that does not end in a slash is found. */
  lemma {:induction false} WholeFound(text: seq<Char>, d: nat, path: seq<Char>)
    requires Passes(text, d, path) && (path == [] || path[|path| - 1] != SLASH)
    ensures Resolve(Bush(text), Dir(d), path).Success?
    decreases |path|
  {
    if path != [] {
      SplitOk(path, |text| + 2);
      OneDown(text, d, path);
      WholeFound(text, Below(d), Split(path, |text| + 2).value.rest);
    }
  }

  /** One that does is not. */
  lemma {:induction false} SlashLost(text: seq<Char>, d: nat, path: seq<Char>)
    requires Passes(text, d, path) && path != [] && path[|path| - 1] == SLASH
    ensures Nested(Bush(text), Dir(d), path) == Failure(NoEntry)
    decreases |path|
  {
    SplitOk(path, |text| + 2);
    var h := Split(path, |text| + 2).value;
    if h.name == [] {
      EmptyName(Bush(text), Dir(d), path);
    } else {
      OneDown(text, d, path);
      SlashLost(text, Below(d), h.rest);
    }
  }

  /** Where the text, or the text and the rest, is looked up from. */
  function StartOf(path: seq<Char>): nat { if path != [] && path[0] == SLASH then ROOT else HERE }

  lemma {:induction false} LinkLeads(text: seq<Char>)
    requires Clean(text) && |text| + 3 < MAXPATHLEN - 1
    ensures var t, all := Bush(text), text + [SLASH, B];
            && Resolve(t, Place(HERE, Directory, 0), [LinkName(text), SLASH, B]) == Resolve(t, Dir(StartOf(all)), all)
            && Nested(t, Place(HERE, Directory, 0), [LinkName(text), SLASH, B]) ==
               ThenNested(t, Nested(t, Dir(StartOf(text)), text), [SLASH, B])
  {
    var t, path, nd := Bush(text), [LinkName(text), SLASH, B], Link(|text|, Success(text));
    var all := text + [SLASH, B];
    NameSplit(LinkName(text), |text| + 2);
    NoNull(all);
    assert Spliced(nd, [SLASH, B], 0) == Success(all);
    Leads(t, Place(HERE, Directory, 0), path, [LinkName(text)], [SLASH, B], Place(3, nd, 0), Onward(Dir(StartOf(all)), all),
          Onward(Dir(StartOf(text)), text));
  }

  lemma NameSplit(c: Char, maxName: nat)
    requires c in {A, L} && maxName >= 2
    ensures Split([c, SLASH, B], maxName) == Success(Head([c], [SLASH, B]))
  {
    var p := [c, SLASH, B];
    assert Slashes(p, 0) == 0 && p[0..] == p;
    assert Scan(p, 1, maxName) == Success(1) && Scan(p, 0, maxName) == Success(1);
    assert p[..1] == [c] && p[1..] == [SLASH, B];
  }

  /** With a text that ends in a slash the path is found in the buffer, where the slashes run together; looked up
      by itself the text ends in an empty name. */
  lemma SlashDiffers(text: seq<Char>)
    requires Clean(text) && text != [] && text[|text| - 1] == SLASH && |text| + 3 < MAXPATHLEN - 1
    ensures var t, p, path := Bush(text), Place(HERE, Directory, 0), [LinkName(text), SLASH, B];
            Resolve(t, p, path).Success? && Nested(t, p, path).Failure?
  {
    var all := text + [SLASH, B];
    LinkLeads(text);
    CleanJoin(text);
    WholeFound(text, StartOf(all), all);
    SlashLost(text, StartOf(text), text);
  }

  lemma CleanJoin(text: seq<Char>)
    requires Clean(text) && text != []
    ensures var all := text + [SLASH, B];
            Passes(text, StartOf(text), text) && Passes(text, StartOf(all), all) && all[|all| - 1] != SLASH
  {
    var all := text + [SLASH, B];
    assert all[0] == text[0];
  }

  /** With an empty text the rest stands first in the buffer and is taken from the root; looked up by itself the
      text leads to the directory of the link. */
  lemma EmptyDiffers()
    ensures var t, p, path := Bush([]), Place(HERE, Directory, 0), [LinkName([]), SLASH, B];
            Resolve(t, p, path) == Success(Dir(5)) && Nested(t, p, path) == Success(Dir(4))
  {
    LinkLeads([]);
    assert [] + [SLASH, B] == [SLASH, B];
    SlashSplit();
    Goes(Bush([]), Dir(ROOT), [SLASH, B], [B], [], Place(5, Directory, 0));
    Goes(Bush([]), Dir(HERE), [SLASH, B], [B], [], Place(4, Directory, 0));
  }

  lemma SlashSplit()
    ensures Split([SLASH, B], 2) == Success(Head([B], []))
  {
    assert Slashes([SLASH, B], 1) == 1 && Slashes([SLASH, B], 0) == 1 && [SLASH, B][1..] == [B];
    assert Scan([B], 1, 2) == Success(1) && Scan([B], 0, 2) == Success(1);
    assert [B][..1] == [B] && [B][1..] == [];
  }

  /** Every link of the tree has this text. */
  ghost predicate TextsAre(t: Tree, text: seq<Char>) {
    forall i :: t.inode(i).Success? && t.inode(i).value.Link? ==> t.inode(i).value == Link(|text|, Success(text))
  }

  ghost predicate Agrees(t: Tree, p: Place, path: seq<Char>) {
    Resolve(t, p, path) == Failure(PathTooLong) || Resolve(t, p, path) == Nested(t, p, path)
  }

  lemma AgreesIfWhole(t: Tree, p: Place, path: seq<Char>, text: seq<Char>)
    requires Whole(text) && TextsAre(t, text) && (path == [] || Whole(path))
    ensures Agrees(t, p, path)
  {
    assert TreeOk(t) && WholeLinks(t);
    NestedAgrees(t, p, path);
  }

  lemma BushTexts(text: seq<Char>)
    ensures TextsAre(Bush(text), text) && Whole([LinkName(text), SLASH, B])
  {
  }

  lemma DiffersUnlessWhole(text: seq<Char>)
    requires Clean(text) && |text| + 3 < MAXPATHLEN - 1 && !Whole(text)
    ensures !Agrees(Bush(text), Place(HERE, Directory, 0), [LinkName(text), SLASH, B])
  {
    if text == [] {
      EmptyDiffers();
    } else {
      SlashDiffers(text);
    }
  }

  /** The two resolvers agree on a link text, in all trees where it is the text of every link and on all paths,
      exactly if it is not empty and does not end in a slash. */
  lemma TextAgreesIff(text: seq<Char>)
    requires Clean(text) && |text| + 3 < MAXPATHLEN - 1
    ensures Whole(text) <==> forall t: Tree, p: Place, path: seq<Char> :: TextsAre(t, text) && (path == [] || Whole(path)) ==> Agrees(t, p, path)
  {
    if Whole(text) {
      forall t: Tree, p: Place, path: seq<Char> | TextsAre(t, text) && (path == [] || Whole(path)) ensures Agrees(t, p, path) {
        AgreesIfWhole(t, p, path, text);
      }
    } else {
      BushTexts(text);
      DiffersUnlessWhole(text);
    }
  }
}
