/** The round trip: what the reader opens and reads in an image that the writer has built is what was
    put in it. */
module MinixRoundTrip {
  import opened Bytes
  import opened PathNames
  import opened MinixBuild
  import opened MinixCache
  import opened MinixDirectory
  import opened MinixFiles
  import opened MinixReader
  import opened MinixWriter
  import PathLookup

  /** Names that the writer takes and that a path can have between slashes. */
  ghost predicate Legal(name: seq<Byte>) {
    && 0 < |name| <= NAME_LEN && NUL !in name && SLASH !in name && (forall c :: c in name ==> c < 0x80)
    && name != [DOT] && name != [DOT, DOT]
  }

  ghost predicate LegalNames(all: seq<Input>) {
    && (forall i :: 0 <= i < |all| ==> Legal(all[i].name))
    && (forall i, j :: 0 <= i < j < |all| ==> all[i].name != all[j].name)
  }

  /** "/mach_servers/<name>". */
  function PathTo(name: seq<Byte>): seq<Byte> { [SLASH] + MACH_SERVERS + ([SLASH] + name) }

  // ---- Inodes ----

  lemma InodeRead(s: Image, nzones: nat, n: nat)
    requires 1440 <= nzones <= 65535 && |s| == nzones * BS && Mount(s) == Success(SuperOf(nzones)) && 0 < n <= NINODES
    ensures Slot(SuperOf(nzones), n) + 32 <= |s| && ReadInode(s, n) == Success(InodeAt(s, Slot(SuperOf(nzones), n)))
  {
    SlotIs(SuperOf(nzones), n);
    var o := Slot(SuperOf(nzones), n);
    assert o == (ZmapBlocks(nzones) + 3) * BS + (n - 1) * 32;
    assert o / BS * BS + BS <= FirstZone(nzones) * BS by { assert o < FirstZone(nzones) * BS; }
  }

  lemma DirNode(s: Image, nzones: nat, n: nat, z: nat, es: seq<Entry>, name: seq<Byte>)
    requires 1440 <= nzones <= 65535 && |s| == nzones * BS && Mount(s) == Success(SuperOf(nzones)) && 0 < n <= NINODES
    requires DirOk(s, InodeAt(s, Slot(SuperOf(nzones), n)), z, es)
    ensures At(TreeOf(s), n, 0) == Success(Place(n, Directory, 0))
    ensures var j := FirstNamed(es, name, 0);
            SearchIn(s, n, name) == if j < |es| && j < 64 then Success(es[j].ino) else Failure(NoEntry)
  {
    InodeRead(s, nzones, n);
    assert NodeAt(s, n) == Success(Directory);
    SearchFinds(s, InodeAt(s, Slot(SuperOf(nzones), n)), z, es, name, 0);
  }

  // ---- Entries ----

  lemma {:induction false} EntriesAt(all: seq<Input>, k: nat, j: nat)
    requires j < k <= |all|
    ensures Entries(all, k)[j + 2] == Entry(j + 3, all[j].name)
    ensures Entries(all, k)[0].name == [DOT] && Entries(all, k)[1].name == [DOT, DOT]
  {
    if j < k - 1 {
      EntriesAt(all, k - 1, j);
    } else if k > 1 {
      EntriesAt(all, k - 1, 0);
    } else {
      assert Entries(all, 0)[0].name == [DOT];
    }
  }

  /** The first entry with the name of file `i` is its own. */
  lemma {:induction false} OwnEntry(all: seq<Input>, i: nat, k: nat)
    requires LegalNames(all) && i < |all| && k <= i + 2
    ensures FirstNamed(Entries(all, |all|), all[i].name, k) == i + 2
    decreases i + 2 - k
  {
    var es := Entries(all, |all|);
    EntriesAt(all, |all|, i);
    if k < i + 2 {
      if k >= 2 {
        EntriesAt(all, |all|, k - 2);
      }
      OwnEntry(all, i, k + 1);
    }
  }

  // ---- Paths ----

  /** A name that is one component of a path. */
  ghost predicate Component(w: seq<Byte>) {
    0 < |w| <= NAME_LEN && SLASH !in w && forall c :: c in w ==> c < 0x80
  }

  lemma SplitWord(w: seq<Byte>, rest: seq<Byte>)
    requires Component(w) && (rest == [] || rest[0] == SLASH)
    ensures Split([SLASH] + w + rest, NAME_LEN) == Success(Head(w, rest))
  {
    var path := [SLASH] + w + rest;
    assert w[0] in w && path[1] == w[0];
    assert Slashes(path, 1) == 1 && Slashes(path, 0) == 1;
    assert path[1..] == w + rest;
    ComponentLimit(w, rest, NAME_LEN);
    assert (w + rest)[..|w|] == w && (w + rest)[|w|..] == rest;
  }

  /** A step into a directory entry that is not a link. */
  lemma StepInto(t: Tree, p: Place, w: seq<Byte>, rest: seq<Byte>, c: Place)
    requires t.maxName == NAME_LEN && p.node.Directory? && Component(w) && (rest == [] || rest[0] == SLASH)
    requires Child(t, p.ino, w) == Success(c) && !c.node.Link?
    ensures Resolve(t, p, [SLASH] + w + rest) == Resolve(t, c.(links := p.links), rest)
  {
    SplitWord(w, rest);
    assert Look(t, p, [SLASH] + w + rest) == Success(Found(c, rest));
  }

  lemma StepFails(t: Tree, p: Place, w: seq<Byte>, e: Error)
    requires t.maxName == NAME_LEN && p.node.Directory? && Component(w) && Child(t, p.ino, w) == Failure(e)
    ensures Resolve(t, p, [SLASH] + w) == Failure(e)
  {
    SplitWord(w, []);
    assert [SLASH] + w + [] == [SLASH] + w;
    assert Look(t, p, [SLASH] + w) == Failure(e);
  }

  lemma MachServers()
    ensures Component(MACH_SERVERS) && FirstNamed(ROOT_ENTRIES, MACH_SERVERS, 0) == 2
  {
    assert FirstNamed(ROOT_ENTRIES, MACH_SERVERS, 2) == 2 && FirstNamed(ROOT_ENTRIES, MACH_SERVERS, 1) == 2;
  }

  // ---- The theorem ----

  /** Opening a file by its path finds its inode exactly if its entry is one of the first 64; those
      beyond are written where the reader sees a hole. */
  lemma Opens(s: Image, nzones: nat, all: seq<Input>, written: seq<Written>, i: nat)
    requires ImageHolds(s, nzones, all, written) && LegalNames(all) && i < |all|
    ensures OpenFile(s, PathTo(all[i].name)) == if i + 2 < 64 then Success(i + 3) else Failure(NoEntry)
  {
    FoundInside(s, nzones, all, written, i);
    OpenRoot(s, nzones, all[i].name);
    InodeRead(s, nzones, i + 3);
    OpenInside(s, i, all[i].name, Place(2, Directory, 0));
  }

  lemma FoundInside(s: Image, nzones: nat, all: seq<Input>, written: seq<Written>, i: nat)
    requires ImageHolds(s, nzones, all, written) && LegalNames(all) && i < |all|
    ensures At(TreeOf(s), 2, 0) == Success(Place(2, Directory, 0))
    ensures SearchIn(s, 2, all[i].name) == if i + 2 < 64 then Success(i + 3) else Failure(NoEntry)
  {
    DirNode(s, nzones, 2, FirstZone(nzones) + 1, Entries(all, |all|), all[i].name);
    OwnEntry(all, i, 0);
    EntriesAt(all, |all|, i);
  }

  /** The lookup comes into the directory of the servers. */
  lemma OpenRoot(s: Image, nzones: nat, name: seq<Byte>)
    requires 1440 <= nzones <= 65535 && |s| == nzones * BS && Mount(s) == Success(SuperOf(nzones))
    requires DirOk(s, InodeAt(s, Slot(SuperOf(nzones), 1)), FirstZone(nzones), ROOT_ENTRIES)
    requires At(TreeOf(s), 2, 0) == Success(Place(2, Directory, 0))
    ensures Open(TreeOf(s), PathTo(name)) == Resolve(TreeOf(s), Place(2, Directory, 0), [SLASH] + name)
  {
    var t := TreeOf(s);
    var root, dir := Place(1, Directory, 0), Place(2, Directory, 0);
    DirNode(s, nzones, 1, FirstZone(nzones), ROOT_ENTRIES, MACH_SERVERS);
    MachServers();
    assert Child(t, 1, MACH_SERVERS) == Success(dir);
    StepInto(t, root, MACH_SERVERS, [SLASH] + name, dir);
  }

  lemma OpenInside(s: Image, i: nat, name: seq<Byte>, dir: Place)
    requires Legal(name) && dir == Place(2, Directory, 0) && NodeAt(s, i + 3).Success?
    requires SearchIn(s, 2, name) == if i + 2 < 64 then Success(i + 3) else Failure(NoEntry)
    ensures var r := Resolve(TreeOf(s), dir, [SLASH] + name);
            if i + 2 < 64 then r.Success? && r.value.ino == i + 3 else r == Failure(NoEntry)
  {
    var t := TreeOf(s);
    if i + 2 < 64 {
      StepInto(t, dir, name, [], Place(i + 3, NodeAt(s, i + 3).value, 0));
      assert [SLASH] + name + [] == [SLASH] + name;
    } else {
      StepFails(t, dir, name, NoEntry);
    }
  }

  lemma ReadsIts(s: Image, sb: Super, f: Written, pos: nat)
    requires FileOk(s, sb, f) && |s| <= 0x1_0000 * BS
    ensures ReadByte(s, InodeAt(s, Slot(sb, f.ino)), pos) == if pos < |f.data| then Success(f.data[pos]) else Failure(Other(3))
  {
    if pos < |f.data| {
      ReadsBack(s, sb, f, pos);
    }
  }

  /** Every file has its size and mode and, byte by byte, its data; but where the entries have run on into it
      they are what is read. */
  lemma ReadsTheFile(s: Image, nzones: nat, all: seq<Input>, written: seq<Written>, i: nat, pos: nat)
    requires ImageHolds(s, nzones, all, written) && i < |all|
    ensures ReadInode(s, i + 3).Success?
    ensures var ino, es, f := ReadInode(s, i + 3).value, Entries(all, |all|), written[i];
            && ino.size == |all[i].data| && ino.mode == ModeOf(i)
            && ReadByte(s, ino, pos) ==
               if pos >= |all[i].data| then Failure(Other(3))
               else if Overrun(nzones, |es|, f, pos) then Success(EntryByte(nzones, es, f, pos))
               else Success(all[i].data[pos])
  {
    ReadsRemains(s, nzones, all, written, i, pos);
  }

  lemma ReadsRemains(s: Image, nzones: nat, all: seq<Input>, written: seq<Written>, i: nat, pos: nat)
    requires ImageHolds(s, nzones, all, written) && i < |all|
    ensures ReadInode(s, i + 3).Success?
    ensures var ino, f := ReadInode(s, i + 3).value, Remains(nzones, Entries(all, |all|), written[i]);
            && ino.size == |all[i].data| && ino.mode == ModeOf(i)
            && ReadByte(s, ino, pos) == if pos < |f.data| then Success(f.data[pos]) else Failure(Other(3))
  {
    InodeRead(s, nzones, i + 3);
    ReadsIts(s, SuperOf(nzones), Remains(nzones, Entries(all, |all|), written[i]), pos);
  }

  /** In particular every file that the entries spare is as it was; with up to 64 entries that is every file. */
  lemma ReadsSpared(s: Image, nzones: nat, all: seq<Input>, written: seq<Written>, i: nat, pos: nat)
    requires ImageHolds(s, nzones, all, written) && i < |all| && Spared(nzones, all, written[i]) && pos < |all[i].data|
    ensures ReadInode(s, i + 3).Success? && ReadByte(s, ReadInode(s, i + 3).value, pos) == Success(all[i].data[pos])
  {
    ReadsTheFile(s, nzones, all, written, i, pos);
    SparedIff(nzones, all, written[i]);
  }

  /** The names given, with that of the configuration. */
  lemma AllLegal(files: seq<Input>)
    requires LegalNames(files) && forall i :: 0 <= i < |files| ==> files[i].name != BOOTSTRAP_CONF
    ensures LegalNames(AllFiles(files))
  {
    ConfLegal();
    OneBefore(Input(BOOTSTRAP_CONF, [], Conf(files)), files);
  }

  lemma ConfLegal()
    ensures Legal(BOOTSTRAP_CONF)
  {
  }

  lemma OneBefore(first: Input, files: seq<Input>)
    requires Legal(first.name) && LegalNames(files) && forall i :: 0 <= i < |files| ==> files[i].name != first.name
    ensures LegalNames([first] + files)
  {
    var all := [first] + files;
    assert forall i :: 0 < i < |all| ==> all[i] == files[i - 1];
  }

  /** For up to 64 entries, whatever the files are: each is found under its name, and every byte of it
      reads back as it was, through direct, single and double indirect zones. */
  lemma RoundTrip(s: Image, nzones: nat, files: seq<Input>, written: seq<Written>, i: nat, pos: nat)
    requires ImageHolds(s, nzones, AllFiles(files), written) && |files| + 3 <= 64
    requires LegalNames(files) && forall i :: 0 <= i < |files| ==> files[i].name != BOOTSTRAP_CONF
    requires i < |files| && pos < |files[i].data|
    ensures OpenFile(s, PathTo(files[i].name)).Success?
    ensures var n := OpenFile(s, PathTo(files[i].name)).value;
            ReadInode(s, n).Success? && ReadByte(s, ReadInode(s, n).value, pos) == Success(files[i].data[pos])
  {
    AllLegal(files);
    var all := AllFiles(files);
    assert all[i + 1] == files[i];
    Opens(s, nzones, all, written, i + 1);
    ReadsSpared(s, nzones, all, written, i + 1, pos);
  }

  // ---- From the files to a read ----

  /** Nothing of a file written is a hole, so a read delivers its bytes whichever way it takes them. */
  lemma PlanIsData(s: Image, sb: Super, f: Written, p: Request, pos: nat)
    requires FileOk(s, sb, f) && |s| <= 0x1_0000 * BS && p.recSize > 0 && pos < |f.data|
    ensures Plan(s, InodeAt(s, Slot(sb, f.ino)), p)(pos) == Success(f.data[pos])
  {
    ReadsBack(s, sb, f, pos);
    DeliveredIs(s, InodeAt(s, Slot(sb, f.ino)), p, pos);
  }

  lemma PlanOfFile(s: Image, nzones: nat, all: seq<Input>, written: seq<Written>, i: nat, p: Request, pos: nat)
    requires ImageHolds(s, nzones, all, written) && i < |all| && Spared(nzones, all, written[i]) && p.recSize > 0 && pos < |all[i].data|
    ensures ReadInode(s, i + 3).Success? && Plan(s, ReadInode(s, i + 3).value, p)(pos) == Success(all[i].data[pos])
  {
    InodeRead(s, nzones, i + 3);
    WholeFile(s, nzones, all, written, i);
    PlanIsData(s, SuperOf(nzones), written[i], p, pos);
  }

  lemma WholeFile(s: Image, nzones: nat, all: seq<Input>, written: seq<Written>, i: nat)
    requires ImageHolds(s, nzones, all, written) && i < |all| && Spared(nzones, all, written[i])
    ensures FileOk(s, SuperOf(nzones), written[i]) && written[i].ino == i + 3 && written[i].data == all[i].data
  {
    SparedIff(nzones, all, written[i]);
    assert FileHeld(s, nzones, Entries(all, |all|), written[i], i, all[i]);
  }

  /** A slice of a file, filled in as planned, is the slice of its data. */
  lemma SliceIsData(s: Image, nzones: nat, all: seq<Input>, written: seq<Written>, i: nat, p: Request, dst: seq<Byte>)
    requires ImageHolds(s, nzones, all, written) && i < |all| && Spared(nzones, all, written[i]) && p.recSize > 0
    requires p.offset + p.count <= |all[i].data| && |dst| == p.count
    ensures ReadInode(s, i + 3).Success?
    ensures var plan := Plan(s, ReadInode(s, i + 3).value, p);
            && Whole(plan, p.offset, p.offset + p.count)
            && (Fills(plan, dst, 0, p.offset, p.offset + p.count) ==> dst == all[i].data[p.offset..p.offset + p.count])
  {
    InodeRead(s, nzones, i + 3);
    var plan := Plan(s, ReadInode(s, i + 3).value, p);
    forall q: nat | p.offset <= q < p.offset + p.count ensures plan(q) == Success(all[i].data[q]) {
      PlanOfFile(s, nzones, all, written, i, p, q);
    }
    FilledIs(plan, dst, p.offset, all[i].data);
  }

  lemma FilledIs(plan: nat -> Result<Byte>, dst: seq<Byte>, pos: nat, data: seq<Byte>)
    requires pos + |dst| <= |data| && forall q: nat :: pos <= q < pos + |dst| ==> plan(q) == Success(data[q])
    ensures Fills(plan, dst, 0, pos, pos + |dst|) ==> dst == data[pos..pos + |dst|]
  {
    if Fills(plan, dst, 0, pos, pos + |dst|) {
      forall j: nat | j < |dst| ensures dst[j] == data[pos + j] {
        assert plan(pos + j) == Success(dst[j]);
      }
    }
  }

  /** minixfs_read_file on the file just opened, into memory at address `base`. */
  method ReadOpened(s: Image, n: nat, offset: nat, count: nat, recSize: nat, base: nat) returns (ok: bool, dst: array<Byte>)
    requires ReadInode(s, n).Success? && recSize > 0
    requires Whole(Plan(s, ReadInode(s, n).value, Request(recSize, offset, base, count)), offset, offset + count)
    ensures ok && dst.Length == count
    ensures Fills(Plan(s, ReadInode(s, n).value, Request(recSize, offset, base, count)), dst[..], 0, offset, offset + count)
  {
    var f := new OpenedFile(s, recSize);
    dst := new Byte[count](_ => 0);
    var read := f.ReadInode({}, n);
    ok := f.ReadFile({}, offset, dst, base, 0, count);
  }

  /** minixfs_open_file on the path of a file, edited in place in its buffer. */
  method OpenByName(s: Image, name: seq<Byte>) returns (r: Result<nat>)
    requires Legal(name)
    ensures r == OpenFile(s, PathTo(name))
  {
    assert NUL !in MACH_SERVERS;
    var p := PathLookup.OpenFile(TreeOf(s), PathTo(name));
    r := match p
      case Failure(e) => Failure(e)
      case Success(place) => Success(place.ino);
  }

  /** The file is opened by its name and read through the caches. */
  method ReadBack(s: Image, ghost nzones: nat, ghost all: seq<Input>, ghost written: seq<Written>, ghost i: nat,
                  name: seq<Byte>, offset: nat, count: nat, recSize: nat, base: nat)
    returns (ok: bool, dst: array<Byte>)
    requires ImageHolds(s, nzones, all, written) && |all| + 2 <= 64 && LegalNames(all)
    requires i < |all| && name == all[i].name && offset + count <= |all[i].data| && recSize > 0
    ensures ok && dst[..] == all[i].data[offset..offset + count]
  {
    var n := OpenBack(s, nzones, all, written, i, name);
    ok, dst := ReadData(s, nzones, all, written, i, n, offset, count, recSize, base);
  }

  method OpenBack(s: Image, ghost nzones: nat, ghost all: seq<Input>, ghost written: seq<Written>, ghost i: nat, name: seq<Byte>)
    returns (n: nat)
    requires ImageHolds(s, nzones, all, written) && |all| + 2 <= 64 && LegalNames(all) && i < |all| && name == all[i].name
    ensures n == i + 3
  {
    Opens(s, nzones, all, written, i);
    var r := OpenByName(s, name);
    n := r.value;
  }

  method ReadData(s: Image, ghost nzones: nat, ghost all: seq<Input>, ghost written: seq<Written>, ghost i: nat,
                  n: nat, offset: nat, count: nat, recSize: nat, base: nat)
    returns (ok: bool, dst: array<Byte>)
    requires ImageHolds(s, nzones, all, written) && i < |all| && Spared(nzones, all, written[i]) && n == i + 3
    requires offset + count <= |all[i].data| && recSize > 0
    ensures ok && dst[..] == all[i].data[offset..offset + count]
  {
    ghost var p := Request(recSize, offset, base, count);
    SliceIsData(s, nzones, all, written, i, p, seq(count, _ => 0));
    ok, dst := ReadOpened(s, n, offset, count, recSize, base);
    SliceIsData(s, nzones, all, written, i, p, dst[..]);
  }

  /** From the files to the bytes read: whenever there are inodes and zones enough for the image to be
      built, any slice of any of the files is read back from it. */
  method BuildAndRead(files: seq<Input>, size: nat, time: nat, i: nat, offset: nat, count: nat, recSize: nat, base: nat)
    returns (built: bool, ok: bool, dst: array<Byte>)
    requires time < 0x1_0000_0000 && |files| + 3 <= 64
    requires LegalNames(files) && forall j :: 0 <= j < |files| ==> files[j].name != BOOTSTRAP_CONF
    requires i < |files| && offset + count <= |files[i].data| && recSize > 0
    ensures built <==> 2 + NeedAll(AllFiles(files)) <= Room(Zones(size))
    ensures built ==> ok && dst[..] == files[i].data[offset..offset + count]
  {
    var image, written := Build(files, size, time);
    built := image.Success?;
    if built {
      AllLegal(files);
      assert AllFiles(files)[i + 1] == files[i];
      ok, dst := ReadBack(image.value[..], Zones(size), AllFiles(files), written, i + 1, files[i].name, offset, count, recSize, base);
    } else {
      ok, dst := false, new Byte[0](_ => 0);
    }
  }
}
