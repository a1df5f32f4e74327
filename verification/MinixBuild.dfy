/** The image that mkminix.py builds: a root directory with one entry, /mach_servers with the
    configuration and the files, and the proof that the reader gives the files back. */
module MinixBuild {
  import opened Bytes
  import opened PathNames
  import opened MinixDirectory
  import opened MinixFiles
  import opened MinixReader
  import opened MinixWriter

  /** A file to be put in the image, with the arguments for its line of the configuration. */
  datatype Input = Input(name: seq<Byte>, args: seq<Byte>, data: seq<Byte>)

  const SPACE: Byte := 32
  const NEWLINE: Byte := 10
  const DOT: Byte := 46

  /** "mach_servers", "bootstrap.conf" and "default_pager". */
  const MACH_SERVERS: seq<Byte> := [109, 97, 99, 104, 95, 115, 101, 114, 118, 101, 114, 115]
  const BOOTSTRAP_CONF: seq<Byte> := [98, 111, 111, 116, 115, 116, 114, 97, 112, 46, 99, 111, 110, 102]
  const DEFAULT_PAGER: seq<Byte> := [100, 101, 102, 97, 117, 108, 116, 95, 112, 97, 103, 101, 114]

  const FILEMODE: nat := 0x81A4
  const PROGMODE: nat := 0x81ED

  function Line(f: Input): seq<Byte> {
    f.name + [SPACE] + f.name + (if f.args == [] then [] else [SPACE] + f.args) + [NEWLINE]
  }

  function LinesOf(files: seq<Input>): seq<Byte> {
    if files == [] then [] else LinesOf(files[..|files| - 1]) + Line(files[|files| - 1])
  }

  /** The text of bootstrap.conf. */
  function Conf(files: seq<Input>): seq<Byte> {
    if LinesOf(files) == [] then DEFAULT_PAGER + [SPACE] + DEFAULT_PAGER + [NEWLINE] else LinesOf(files)
  }

  function Zones(size: nat): nat {
    var n := if size / BS > 1440 then size / BS else 1440;
    if n > 65535 then 65535 else n
  }

  /** The files in the order in which they are written: the configuration first. */
  function AllFiles(files: seq<Input>): seq<Input> { [Input(BOOTSTRAP_CONF, [], Conf(files))] + files }

  function ModeOf(i: nat): nat { if i == 0 then FILEMODE else PROGMODE }

  /** The entries of /mach_servers, once `k` files have been written; inodes are given out in order. */
  function Entries(all: seq<Input>, k: nat): (es: seq<Entry>)
    requires k <= |all|
    ensures |es| == k + 2
  {
    if k == 0 then [Entry(2, [DOT]), Entry(1, [DOT, DOT])] else Entries(all, k - 1) + [Entry(k + 2, all[k - 1].name)]
  }

  /** The image after `k` files: each is there, in its own zones, the first of them after the two that
      the directories will have. */
  ghost predicate FilesOk(s: Image, nzones: nat, all: seq<Input>, written: seq<Written>, end: nat) {
    && |written| <= |all|
    && forall i :: 0 <= i < |written| ==>
         && FileOk(s, SuperOf(nzones), written[i]) && written[i].ino == i + 3 && written[i].mode == ModeOf(i)
         && written[i].data == all[i].data && FirstZone(nzones) + 2 <= written[i].start <= written[i].end <= end
  }

  /** A file more leaves those before it as they are. */
  lemma FilesKept(s: Image, r: Image, nzones: nat, all: seq<Input>, written: seq<Written>, end: nat)
    requires FilesOk(s, nzones, all, written, end) && |written| + 2 < NINODES
    requires SameWithin(s, r, Itab(nzones), Slot(SuperOf(nzones), |written| + 3)) && SameWithin(s, r, FirstZone(nzones) * BS, end * BS)
    ensures FilesOk(r, nzones, all, written, end)
  {
    forall i | 0 <= i < |written| ensures FileOk(r, SuperOf(nzones), written[i]) {
      FileKept(s, r, SuperOf(nzones), written[i]);
    }
  }

  // ---- Building ----

  /** The image has got a directory, and is otherwise as it was. */
  ghost predicate DirWritten(s: Image, r: Image, nzones: nat, n: nat, z: nat, es: seq<Entry>) {
    && 1440 <= nzones <= 65535 && |s| == |r| == nzones * BS && 0 < n <= NINODES
    && DirOk(r, InodeAt(r, Slot(SuperOf(nzones), n)), z, es)
    && BytesAt(r, z * BS, Dirents(es))
    && SameWithin(s, r, Itab(nzones), Slot(SuperOf(nzones), n)) && SameWithin(s, r, Slot(SuperOf(nzones), n) + 32, z * BS)
    && SameWithin(s, r, z * BS + DIRENT * |es|, nzones * BS)
  }

  ghost predicate BytesAt(s: Image, at: nat, b: seq<Byte>) {
    at + |b| <= |s| && forall j: nat :: j < |b| ==> s[at + j] == b[j]
  }

  const ROOT_ENTRIES: seq<Entry> := [Entry(1, [DOT]), Entry(1, [DOT, DOT]), Entry(2, MACH_SERVERS)]

  lemma RootFine()
    ensures EntriesOk(ROOT_ENTRIES) && |ROOT_ENTRIES| == 3
  {
  }

  /** A directory: its entries in zone `z`, however many there are, and its inode. */
  method WriteDirectory(w: Writer, n: nat, z: nat, es: seq<Entry>, nlinks: Byte, time: nat)
    requires w.Valid() && 0 < n <= NINODES && FirstZone(w.nzones) <= z <= FirstZone(w.nzones) + 1
    requires EntriesOk(es) && |es| <= NINODES && time < 0x1_0000_0000
    modifies w.d
    ensures w.Valid() && DirWritten(old(w.d[..]), w.d[..], w.nzones, n, z, es)
  {
    var buf := Dirents(es);
    ghost var before := w.d[..];
    Copy(w.d, z * BS, buf);
    ImageKept(before, w.d[..], w.nzones, w.inos, w.zones);
    ghost var s := w.d[..];
    w.SetInode(n, DIRMODE, |buf|, [z], 0, 0, nlinks, time);
    DirDone(before, s, w.d[..], w.nzones, n, z, es);
  }

  lemma {:induction false} DirDone(before: Image, s: Image, r: Image, nzones: nat, n: nat, z: nat, es: seq<Entry>)
    requires 1440 <= nzones <= 65535 && |before| == |s| == |r| == nzones * BS && 0 < n <= NINODES && EntriesOk(es) && |es| <= NINODES
    requires FirstZone(nzones) <= z <= FirstZone(nzones) + 1
    requires SameOutside(before, s, z * BS, z * BS + DIRENT * |es|) && s[z * BS..z * BS + DIRENT * |es|] == Dirents(es)
    requires SameOutside(s, r, Slot(SuperOf(nzones), n), Slot(SuperOf(nzones), n) + 32)
    requires InodeAt(r, Slot(SuperOf(nzones), n)) == Inode(DIRMODE, DIRENT * |es|, ZoneNumbers([z], 0, 0))
    ensures DirWritten(before, r, nzones, n, z, es)
  {
    EntriesIn(s, z, es);
    EntriesSame(s, r, z, es);
    forall j: nat | j < DIRENT * |es| ensures r[z * BS + j] == Dirents(es)[j] {
      assert s[z * BS..z * BS + DIRENT * |es|][j] == s[z * BS + j];
    }
  }

  ghost predicate HasEntries(s: Image, z: nat, es: seq<Entry>)
    requires EntriesOk(es)
  {
    z * BS + DIRENT * |es| <= |s| && forall k: nat :: k < |es| ==> s[z * BS + DIRENT * k..z * BS + DIRENT * k + DIRENT] == Dirent(es[k])
  }

  lemma {:induction false} EntriesIn(s: Image, z: nat, es: seq<Entry>)
    requires EntriesOk(es) && z * BS + DIRENT * |es| <= |s| && s[z * BS..z * BS + DIRENT * |es|] == Dirents(es)
    ensures HasEntries(s, z, es)
  {
    forall k: nat | k < |es| ensures s[z * BS + DIRENT * k..z * BS + DIRENT * k + DIRENT] == Dirent(es[k]) {
      DirentsAt(es, k);
      EntryIn(s, z * BS, Dirents(es), k, Dirent(es[k]));
    }
  }

  lemma EntryIn(s: Image, o: nat, b: seq<Byte>, k: nat, e: seq<Byte>)
    requires o + |b| <= |s| && s[o..o + |b|] == b && DIRENT * k + DIRENT <= |b| && b[DIRENT * k..DIRENT * k + DIRENT] == e
    ensures s[o + DIRENT * k..o + DIRENT * k + DIRENT] == e
  {
    Part(s, o, b, DIRENT * k, DIRENT);
  }

  lemma EntriesSame(s: Image, r: Image, z: nat, es: seq<Entry>)
    requires EntriesOk(es) && HasEntries(s, z, es) && SameWithin(s, r, z * BS, z * BS + DIRENT * |es|)
    ensures HasEntries(r, z, es)
  {
    forall k: nat | k < |es| ensures r[z * BS + DIRENT * k..z * BS + DIRENT * k + DIRENT] == Dirent(es[k]) {
      assert r[z * BS + DIRENT * k..z * BS + DIRENT * k + DIRENT] == s[z * BS + DIRENT * k..z * BS + DIRENT * k + DIRENT];
    }
  }

  /** Byte `pos` of the file lies where the entries of the directory of the servers run on to. */
  predicate Overrun(nzones: nat, n: nat, f: Written, pos: nat) {
    f.start * BS + pos < (FirstZone(nzones) + 1) * BS + DIRENT * n
  }

  /** The byte of the entries that is there instead. */
  function EntryByte(nzones: nat, es: seq<Entry>, f: Written, pos: nat): Byte
    requires EntriesOk(es) && FirstZone(nzones) + 2 <= f.start && Overrun(nzones, |es|, f, pos)
  {
    Dirents(es)[(f.start - FirstZone(nzones) - 1) * BS + pos]
  }

  /** What the file is once the directory has been written: where that has run on into it, it has entries. */
  function Remains(nzones: nat, es: seq<Entry>, f: Written): (r: Written)
    requires EntriesOk(es) && FirstZone(nzones) + 2 <= f.start
    ensures |r.data| == |f.data|
  {
    f.(data := seq(|f.data|, pos requires 0 <= pos < |f.data| =>
         if Overrun(nzones, |es|, f, pos) then EntryByte(nzones, es, f, pos) else f.data[pos]))
  }

  /** Both directories, and each file with what remains of its data. */
  ghost predicate ImageHolds(s: Image, nzones: nat, all: seq<Input>, written: seq<Written>) {
    && 1440 <= nzones <= 65535 && |s| == nzones * BS && Mount(s) == Success(SuperOf(nzones)) && |written| == |all| && |all| + 2 <= NINODES
    && DirOk(s, InodeAt(s, Slot(SuperOf(nzones), 1)), FirstZone(nzones), ROOT_ENTRIES)
    && DirOk(s, InodeAt(s, Slot(SuperOf(nzones), 2)), FirstZone(nzones) + 1, Entries(all, |all|))
    && forall i :: 0 <= i < |all| ==> FileHeld(s, nzones, Entries(all, |all|), written[i], i, all[i])
  }

  ghost predicate FileHeld(s: Image, nzones: nat, es: seq<Entry>, f: Written, i: nat, given: Input) {
    && f.ino == i + 3 && f.mode == ModeOf(i) && f.data == given.data && EntriesOk(es)
    && FirstZone(nzones) + 2 <= f.start && FileOk(s, SuperOf(nzones), Remains(nzones, es, f))
  }

  /** The entries do not reach the file's zones; up to 64 entries reach no file's. */
  ghost predicate Spared(nzones: nat, all: seq<Input>, f: Written) {
    |all| + 2 <= 64 || (FirstZone(nzones) + 1) * BS + DIRENT * (|all| + 2) <= f.start * BS
  }

  /** Exactly then no byte of it is overrun, if it has any. */
  lemma {:induction false} SparedIff(nzones: nat, all: seq<Input>, f: Written)
    requires FirstZone(nzones) + 2 <= f.start && EntriesOk(Entries(all, |all|))
    ensures Spared(nzones, all, f) ==> Remains(nzones, Entries(all, |all|), f) == f
    ensures var n := |all| + 2; f.data != [] ==> (Spared(nzones, all, f) <==> forall pos: nat :: pos < |f.data| ==> !Overrun(nzones, n, f, pos))
  {
    if Spared(nzones, all, f) {
      assert Remains(nzones, Entries(all, |all|), f).data == f.data;
    } else if f.data != [] {
      assert Overrun(nzones, |all| + 2, f, 0);
    }
  }

  lemma {:induction false} EntriesFine(all: seq<Input>, k: nat)
    requires k <= |all| && k + 2 <= NINODES && forall i :: 0 <= i < k ==> |all[i].name| <= NAME_LEN && NUL !in all[i].name
    ensures EntriesOk(Entries(all, k))
  {
    if k > 0 {
      EntriesFine(all, k - 1);
    }
  }

  /** What there is once the first `i` files have been written. */
  ghost predicate SoFar(w: Writer, all: seq<Input>, written: seq<Written>, i: nat)
    reads w, w.d
  {
    && i <= |all| && |written| == i && w.Valid() && w.inos == i + 2 && w.zones == 2 + NeedAll(all[..i])
    && FilesOk(w.d[..], w.nzones, all, written, w.Next())
  }

  method AddFile(w: Writer, all: seq<Input>, i: nat, time: nat, ghost written: seq<Written>) returns (r: Result<nat>, ghost f: Written)
    requires i < |all| && SoFar(w, all, written, i) && time < 0x1_0000_0000
    modifies w, w.d
    ensures w.Valid() && (r.Success? <==> i + 2 < NINODES && 2 + NeedAll(all[..i + 1]) <= Room(w.nzones))
    ensures r.Success? ==> SoFar(w, all, written + [f], i + 1)
  {
    ghost var before, end := w.d[..], w.Next();
    NeedMore(all, i);
    r, f := w.WriteFile(all[i].data, ModeOf(i), time);
    if r.Success? {
      FileAdded(before, w.d[..], w.nzones, all, written, end, f, w.Next());
    }
  }

  lemma FileAdded(s: Image, r: Image, nzones: nat, all: seq<Input>, written: seq<Written>, end: nat, f: Written, end2: nat)
    requires FilesOk(s, nzones, all, written, end) && |written| < |all| && |written| + 2 < NINODES && end <= end2
    requires SameWithin(s, r, Itab(nzones), Slot(SuperOf(nzones), |written| + 3)) && SameWithin(s, r, FirstZone(nzones) * BS, end * BS)
    requires var i := |written|; f == Written(i + 3, ModeOf(i), all[i].data, end, end2) && FileOk(r, SuperOf(nzones), f)
    requires FirstZone(nzones) + 2 <= end
    ensures FilesOk(r, nzones, all, written + [f], end2)
  {
    FilesKept(s, r, nzones, all, written, end);
  }

  /** The files, one after the other. */
  method WriteFiles(w: Writer, all: seq<Input>, time: nat) returns (r: Result<()>, ghost written: seq<Written>)
    requires w.Valid() && w.inos == 2 && w.zones == 2 && time < 0x1_0000_0000
    modifies w, w.d
    ensures w.Valid()
    ensures r.Success? <==> |all| + 2 <= NINODES && 2 + NeedAll(all) <= Room(w.nzones)
    ensures r.Success? ==> SoFar(w, all, written, |all|)
  {
    written := [];
    var i := 0;
    while i < |all|
      invariant 0 <= i && SoFar(w, all, written, i)
    {
      NeedMore(all, i);
      ghost var f;
      var n;
      n, f := AddFile(w, all, i, time, written);
      if n.Failure? {
        return Failure(n.error), written;
      }
      written := written + [f];
      i := i + 1;
    }
    assert all[..|all|] == all;
    r := Success(());
  }

  /** The zones that all files need. */
  ghost function NeedAll(all: seq<Input>): nat {
    if all == [] then 0 else NeedAll(all[..|all| - 1]) + Need(Blocks(|all[|all| - 1].data|))
  }

  lemma NeedMore(all: seq<Input>, i: nat)
    requires i < |all|
    ensures NeedAll(all[..i + 1]) == NeedAll(all[..i]) + Need(Blocks(|all[i].data|)) <= NeedAll(all)
  {
    assert all[..i + 1][..i] == all[..i];
    NeedFirst(all, i + 1);
  }

  lemma {:induction false} NeedFirst(all: seq<Input>, i: nat)
    requires i <= |all|
    ensures NeedAll(all[..i]) <= NeedAll(all)
    decreases |all|
  {
    if i < |all| {
      NeedFirst(all[..|all| - 1], i);
      assert all[..|all| - 1][..i] == all[..i];
    } else {
      assert all[..i] == all;
    }
  }

  ghost predicate ShortNames(files: seq<Input>) { forall i :: 0 <= i < |files| ==> |files[i].name| <= NAME_LEN }

  method CheckNames(files: seq<Input>) returns (ok: bool)
    ensures ok <==> ShortNames(files)
  {
    var j := 0;
    while j < |files|
      invariant 0 <= j <= |files| && forall i :: 0 <= i < j ==> |files[i].name| <= NAME_LEN
    {
      if |files[j].name| > NAME_LEN {
        return false;
      }
      j := j + 1;
    }
    ok := true;
  }

  /** The empty image, with an inode and a zone for each of the directories. */
  method Prepare(nzones: nat) returns (w: Writer, root: nat, rz: nat, dino: nat, dz: nat)
    requires 1440 <= nzones <= 65535
    ensures fresh(w) && fresh(w.d) && w.Valid() && w.nzones == nzones && w.inos == 2 && w.zones == 2
    ensures root == 1 && rz == FirstZone(nzones) && dino == 2 && dz == FirstZone(nzones) + 1
  {
    w := new Writer(nzones);
    var r := w.AllocIno();
    var z := w.AllocZone();
    root, rz := r.value, z.value;
    r := w.AllocIno();
    z := w.AllocZone();
    dino, dz := r.value, z.value;
  }

  lemma MountIs(s: Image, nzones: nat, inos: nat, zones: nat)
    requires ImageOk(s, nzones, inos, zones)
    ensures Mount(s) == Success(SuperOf(nzones)) && FirstZone(nzones) + zones <= nzones
  {
  }

  lemma EntriesOfAll(files: seq<Input>)
    requires ShortNames(files) && forall i :: 0 <= i < |files| ==> NUL !in files[i].name
    ensures |files| + 3 <= NINODES ==> EntriesOk(Entries(AllFiles(files), |AllFiles(files)|))
  {
    if |files| + 3 <= NINODES {
      EntriesFine(AllFiles(files), |files| + 1);
    }
  }

  /** The files and the directories of an image that has been prepared. */
  method Fill(w: Writer, all: seq<Input>, root: nat, rz: nat, dino: nat, dz: nat, time: nat) returns (r: Result<()>, ghost written: seq<Written>)
    requires w.Valid() && w.inos == 2 && w.zones == 2 && time < 0x1_0000_0000
    requires root == 1 && rz == FirstZone(w.nzones) && dino == 2 && dz == FirstZone(w.nzones) + 1
    requires |all| + 2 <= NINODES ==> EntriesOk(Entries(all, |all|))
    modifies w, w.d
    ensures r.Success? <==> |all| + 2 <= NINODES && 2 + NeedAll(all) <= Room(w.nzones)
    ensures r.Success? ==> ImageHolds(w.d[..], w.nzones, all, written)
  {
    r, written := WriteFiles(w, all, time);
    if r.Success? {
      Finish(w, all, written, root, rz, dino, dz, time);
    }
  }

  /** The directories, when all files are there. */
  method Finish(w: Writer, all: seq<Input>, ghost written: seq<Written>, root: nat, rz: nat, dino: nat, dz: nat, time: nat)
    requires w.Valid() && time < 0x1_0000_0000 && |all| + 2 <= NINODES && EntriesOk(Entries(all, |all|))
    requires root == 1 && rz == FirstZone(w.nzones) && dino == 2 && dz == FirstZone(w.nzones) + 1
    requires |written| == |all| && FilesOk(w.d[..], w.nzones, all, written, w.Next())
    modifies w.d
    ensures ImageHolds(w.d[..], w.nzones, all, written)
  {
    WriteServers(w, all, Entries(all, |all|), written, dino, dz, time);
    WriteRoot(w, all, Entries(all, |all|), written, root, rz, time);
  }

  /** /mach_servers. */
  method WriteServers(w: Writer, ghost all: seq<Input>, es: seq<Entry>, ghost written: seq<Written>, n: nat, z: nat, time: nat)
    requires w.Valid() && time < 0x1_0000_0000 && EntriesOk(es) && |es| <= NINODES && n == 2 && z == FirstZone(w.nzones) + 1
    requires |written| == |all| && |all| + 2 <= NINODES && FilesOk(w.d[..], w.nzones, all, written, w.Next())
    modifies w.d
    ensures w.Valid() && Served(w.d[..], w.nzones, es, all, written)
  {
    MountIs(w.d[..], w.nzones, w.inos, w.zones);
    ghost var s := w.d[..];
    WriteDirectory(w, n, z, es, 2, time);
    FilesServed(s, w.d[..], w.nzones, es, all, written, w.Next());
  }

  /** The root directory. */
  method WriteRoot(w: Writer, ghost all: seq<Input>, ghost es: seq<Entry>, ghost written: seq<Written>, n: nat, z: nat, time: nat)
    requires w.Valid() && time < 0x1_0000_0000 && n == 1 && z == FirstZone(w.nzones)
    requires es == Entries(all, |all|) && |all| + 2 <= NINODES && Served(w.d[..], w.nzones, es, all, written)
    modifies w.d
    ensures ImageHolds(w.d[..], w.nzones, all, written)
  {
    RootFine();
    ghost var s := w.d[..];
    WriteDirectory(w, n, z, ROOT_ENTRIES, 3, time);
    MountIs(w.d[..], w.nzones, w.inos, w.zones);
    ServedKept(s, w.d[..], w.nzones, es, all, written);
  }

  /** build: succeeds unless a name is too long, or there are not enough inodes or zones. */
  method Build(files: seq<Input>, size: nat, time: nat) returns (r: Result<array<Byte>>, ghost written: seq<Written>)
    requires time < 0x1_0000_0000 && forall i :: 0 <= i < |files| ==> NUL !in files[i].name
    ensures r.Success? ==> ImageHolds(r.value[..], Zones(size), AllFiles(files), written)
    ensures r.Success? <==> ShortNames(files) && |files| + 3 <= NINODES && 2 + NeedAll(AllFiles(files)) <= Room(Zones(size))
  {
    written := [];
    var ok := CheckNames(files);
    if !ok {
      return Failure(NameTooLong), written;
    }
    var w, root, rz, dino, dz := Prepare(Zones(size));
    var done;
    EntriesOfAll(files);
    done, written := Fill(w, AllFiles(files), root, rz, dino, dz, time);
    if done.Failure? {
      return Failure(done.error), written;
    }
    return Success(w.d), written;
  }

  /** The directory of the servers, and what remains of the files. */
  ghost predicate Served(s: Image, nzones: nat, es: seq<Entry>, all: seq<Input>, written: seq<Written>) {
    && 1440 <= nzones <= 65535 && |s| == nzones * BS && |written| == |all|
    && DirOk(s, InodeAt(s, Slot(SuperOf(nzones), 2)), FirstZone(nzones) + 1, es)
    && forall i :: 0 <= i < |all| ==> FileHeld(s, nzones, es, written[i], i, all[i]) && written[i].start <= written[i].end <= nzones
  }

  lemma FilesServed(s: Image, r: Image, nzones: nat, es: seq<Entry>, all: seq<Input>, written: seq<Written>, end: nat)
    requires |written| == |all| && |all| + 2 <= NINODES && FilesOk(s, nzones, all, written, end) && end <= nzones && |es| <= NINODES
    requires DirWritten(s, r, nzones, 2, FirstZone(nzones) + 1, es)
    ensures Served(r, nzones, es, all, written)
  {
    forall i | 0 <= i < |all| ensures FileHeld(r, nzones, es, written[i], i, all[i]) {
      FileOverrun(s, r, nzones, es, written[i]);
    }
  }

  lemma ServedKept(s: Image, r: Image, nzones: nat, es: seq<Entry>, all: seq<Input>, written: seq<Written>)
    requires Served(s, nzones, es, all, written) && |all| + 2 <= NINODES && DirWritten(s, r, nzones, 1, FirstZone(nzones), ROOT_ENTRIES)
    ensures Served(r, nzones, es, all, written)
  {
    forall i | 0 <= i < |all| ensures FileHeld(r, nzones, es, written[i], i, all[i]) {
      RemainsKept(s, r, nzones, es, written[i]);
    }
    InodeKept(s, r, Slot(SuperOf(nzones), 2));
    DirKept(s, r, InodeAt(s, Slot(SuperOf(nzones), 2)), FirstZone(nzones) + 1, es);
  }

  lemma RemainsKept(s: Image, r: Image, nzones: nat, es: seq<Entry>, f: Written)
    requires EntriesOk(es) && FirstZone(nzones) + 2 <= f.start <= f.end <= nzones && 3 <= f.ino <= NINODES
    requires FileOk(s, SuperOf(nzones), Remains(nzones, es, f)) && DirWritten(s, r, nzones, 1, FirstZone(nzones), ROOT_ENTRIES)
    ensures FileOk(r, SuperOf(nzones), Remains(nzones, es, f))
  {
    FileKept(s, r, SuperOf(nzones), Remains(nzones, es, f));
  }

  /** The entries run on into the data of files, but into no pointers: those come after seven data zones,
      and there is not room for so many entries. */
  lemma FileOverrun(s: Image, r: Image, nzones: nat, es: seq<Entry>, f: Written)
    requires FileOk(s, SuperOf(nzones), f) && 3 <= f.ino <= NINODES && FirstZone(nzones) + 2 <= f.start <= f.end <= nzones
    requires |es| <= NINODES && DirWritten(s, r, nzones, 2, FirstZone(nzones) + 1, es)
    ensures FileOk(r, SuperOf(nzones), Remains(nzones, es, f))
  {
    var o, k := Slot(SuperOf(nzones), f.ino), Blocks(|f.data|);
    InodeKept(s, r, o);
    if k > NDADDR {
      assert (f.start + k) * BS >= (FirstZone(nzones) + 1) * BS + DIRENT * |es|;
    }
    LeadsKept(s, r, InodeAt(s, o).zones, f.start, k, f.end);
    DataOverrun(s, r, nzones, es, f);
  }

  lemma {:induction false} DataOverrun(s: Image, r: Image, nzones: nat, es: seq<Entry>, f: Written)
    requires EntriesOk(es) && FirstZone(nzones) + 2 <= f.start && f.start * BS + |f.data| <= |s| == |r| == nzones * BS
    requires BytesAt(r, (FirstZone(nzones) + 1) * BS, Dirents(es))
    requires SameWithin(s, r, (FirstZone(nzones) + 1) * BS + DIRENT * |es|, nzones * BS)
    requires s[f.start * BS..f.start * BS + |f.data|] == f.data
    ensures r[f.start * BS..f.start * BS + |f.data|] == Remains(nzones, es, f).data
  {
    var at, z := f.start * BS, (FirstZone(nzones) + 1) * BS;
    forall pos: nat | pos < |f.data| ensures r[at + pos] == Remains(nzones, es, f).data[pos] {
      if Overrun(nzones, |es|, f, pos) {
        assert r[z + (at + pos - z)] == Dirents(es)[at + pos - z];
      } else {
        assert s[at..at + |f.data|][pos] == s[at + pos];
      }
    }
  }

  lemma DirKept(s: Image, r: Image, dir: Inode, z: nat, es: seq<Entry>)
    requires DirOk(s, dir, z, es) && SameWithin(s, r, z * BS, (z + 1) * BS)
    ensures DirOk(r, dir, z, es)
  {
    forall k: nat | k < |es| && k < 64
      ensures r[z * BS + DIRENT * k..z * BS + DIRENT * k + DIRENT] == Dirent(es[k])
    {
      assert r[z * BS + DIRENT * k..z * BS + DIRENT * k + DIRENT] == s[z * BS + DIRENT * k..z * BS + DIRENT * k + DIRENT];
    }
  }
}
