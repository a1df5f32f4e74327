/** Why a write error must leave a cluster some page that is not being read: a run in which the answer to a
    read gives away the cluster of another object. Object 0 has page 3 stored, the only page of its second
    cluster, and reads it. Then it writes pages 1 and 2. The device refuses page 1 with error 2, so page 2,
    which has not been tried, is completed with that error too and puts the second cluster in error. When the
    read is answered that cluster is empty, and cluster number 2 is given back; but that is object 1's. */
module PagerCodes {
  import opened PagingSegments
  import opened Slots
  import opened Pager
  import opened PagerInvariant
  import opened PagerRuns
  import opened PagerExact

  const FIRST: Loc := Loc(0, 0)
  const OWN: Loc := Loc(0, 1)
  const OTHER: Loc := Loc(0, 2)

  function Two(e0: Entry, e1: Entry): Table { [Some(e0), Some(e1)] }
  function Clusters(used: set<nat>): seq<Seg> { [Seg(3, used)] }
  function Holds(written: bool): Entry { Entry(1, 0, false, if written then {1} else {}, {1}) }
  function Third(got: Option<seq<Content>>): Op { Reading(0, 3, 1, 1, 1, OWN, got) }

  /** The second cluster of object 0 and the only one of object 1. */
  function Objects(e0: Entry, e1: Entry): map<nat, Table> { map[0 := Two(e0, e1), 1 := [Some(Mine(OTHER, 0, true))]] }
  function Disk(): map<(Loc, nat), Content> { map[(OWN, 1) := 30][(OTHER, 0) := 40] }

  function S0(): State { State(2, Clusters({}), map[], map[], map[], {}) }
  function S1(): State { S0().(objs := map[0 := Two(CLEAR, CLEAR)]) }
  function S2(): State {
    State(2, Clusters({1}), map[0 := Two(CLEAR, Holds(false))], map[], map[0 := Writing(0, 3, 1, 1, [30], OWN, false)], {})
  }
  function S3(): State { Issued(S2(), 0) }
  function S4(): State { State(2, Clusters({1}), map[0 := Two(CLEAR, Holds(true))], map[(OWN, 1) := 30], map[], {}) }
  function S5(): State { Created(S4(), 1, 1) }
  function S6(): State { Claiming(S4(), 1, 0, OTHER, 0, 40) }
  function S7(): State { Issued(S6(), 0) }
  function S8(): State { State(2, Clusters({1, 2}), Objects(CLEAR, Holds(true)), Disk(), map[], {}) }
  function S9(): State { S8().(ops := map[0 := Third(None)]) }
  function S10(): State { S8().(ops := map[0 := Third(Some([30]))]) }
  function S11(): State {
    State(2, Clusters({0, 1, 2}), Objects(Entry(0, 0, false, {}, {1}), Holds(true)), Disk(),
          map[0 := Third(Some([30])), 1 := Writing(0, 1, 0, 1, [11], FIRST, false)], {})
  }
  function S12(): State {
    State(2, Clusters({0, 1, 2}), Objects(Entry(2, 0, true, {}, {1}), Holds(true)), Disk(), map[0 := Third(Some([30]))], {FIRST})
  }
  function S13(): State {
    State(2, Clusters({0, 2}), Objects(Entry(2, 0, true, {}, {1}), Entry(2, 0, true, {1}, {1})), Disk(), map[0 := Third(Some([30]))], {FIRST})
  }

  lemma PageMapped()
    ensures Initial(S0()) && Leads(S0(), Create(0, 2), S1())
    ensures Leads(S1(), WriteMap(0, 0, 3, [30], MEM, Some(OWN)), S2())
  {
    assert Created(S0(), 0, 2).objs[0] == Two(CLEAR, CLEAR);
    assert {} + Pages(1, 2) == {1};
    var out := Clmap(Two(CLEAR, CLEAR), 2, 3, Alloc, 1, 0, MEM, Some(OWN));
    assert out.table == Two(CLEAR, Holds(false)) && out.asked && out.reply.Found? && out.reply.at == OWN;
    assert [30][..1] == [30];
    assert Mark(Clusters({}), OWN) == Clusters({1}) by { assert {} + {1} == {1}; }
    assert S1().objs[0 := out.table] == S2().objs;
  }

  lemma PageStored()
    ensures Leads(S2(), Issue(0), S3()) && Leads(S3(), WriteDone(0, 0), S4())
  {
    assert {} + Pages(1, 2) == {1};
    IssueOne(S2(), 0, 30);
    var done := Clmap(Two(CLEAR, Holds(false)), 2, 3, Find, 1, 0, NOMEM, None);
    assert done.table == Two(CLEAR, Holds(true)) && done.freed == None;
    assert S3().ops - {0} == map[];
    assert S3().objs[0 := done.table] == S4().objs;
    assert S3().disk == S4().disk;
  }

  lemma OtherStored()
    ensures Leads(S4(), Create(1, 1), S5()) && Leads(S5(), WriteMap(0, 1, 0, [40], MEM, Some(OTHER)), S6())
    ensures Leads(S6(), Issue(0), S7()) && Leads(S7(), WriteDone(0, 0), S8())
  {
    assert PagerExact.Room(S4(), 1, 0, OTHER, 0);
    Claims(S4(), 1, 0, OTHER, 0, 40);
    Writes(S4(), 1, 0, OTHER, 0, 40);
    var t := WithPage(S4(), 1, OTHER, 0, 40);
    assert Mark(Clusters({1}), OTHER) == Clusters({1, 2}) by { assert {1} + {2} == {1, 2}; }
    assert t.objs == S8().objs && t.segs == S8().segs && t.disk == S8().disk;
  }

  lemma ReadWaits()
    ensures Leads(S8(), ReadMap(0, 0, 3, 1), S9()) && Leads(S9(), ReadDevice(0), S10())
  {
    assert Shift({1}, 1) == {0};
    var out := Clmap(Two(CLEAR, Holds(true)), 2, 3, Find, 0, 0, NOMEM, None);
    assert out.reply.Found? && out.reply.bmap == {0} && out.reply.at == OWN;
    assert Run({0}, true, 0, 1) == 1;
    var got := seq(1, j requires 0 <= j < 1 => S9().disk[(OWN, 1 + j)]);
    assert got[0] == S9().disk[(OWN, 1)] == 30;
    assert got == [30];
  }

  lemma WriteSent()
    ensures Leads(S10(), WriteMap(1, 0, 1, [11, 12], MEM, Some(FIRST)), S11())
  {
    assert {} + Pages(1, 2) == {1};
    var e := Entry(0, 0, false, {}, {1});
    var out := Clmap(Two(CLEAR, Holds(true)), 2, 1, Alloc, 2, 0, MEM, Some(FIRST));
    assert out.table == Two(e, Holds(true)) && out.asked && out.reply.Found? && out.reply.at == FIRST;
    assert [11, 12][..1] == [11];
    assert Mark(Clusters({1, 2}), FIRST) == Clusters({0, 1, 2}) by { assert {1, 2} + {0} == {0, 1, 2}; }
    assert S10().objs[0 := out.table] == S11().objs;
  }

  lemma WriteRefused()
    ensures Leads(S11(), WriteDone(1, 2), S12())
  {
    var e := Entry(0, 0, false, {}, {1});
    var done := Clmap(Two(e, Holds(true)), 2, 1, Find, 1, 2, NOMEM, None);
    assert done.table == Two(Entry(2, 0, true, {}, {1}), Holds(true)) && done.freed == None;
    assert S11().objs[0 := done.table] == S12().objs;
    assert S11().ops - {1} == S12().ops;
    assert {} + {FIRST} == {FIRST};
  }

  lemma RestFails()
    ensures Leads(S12(), FailMark(0, 2, 1, 2), S13()) && !Spared(S12(), FailMark(0, 2, 1, 2))
  {
    var e := Entry(2, 0, true, {}, {1});
    var out := Clmap(Two(e, Holds(true)), 2, 2, Find, 1, 2, NOMEM, None);
    assert out.table == Two(e, Entry(2, 0, true, {1}, {1})) && out.freed == Some(OWN);
    assert Unmark(Clusters({0, 1, 2}), Some(OWN)) == Clusters({0, 2}) by { assert {0, 1, 2} - {1} == {0, 2}; }
    assert S12().objs[0 := out.table] == S13().objs;
    assert ReadingAt(S12(), 0, 0, 1);
    assert forall q: nat :: q in Holds(true).alloc ==> S12().ops[0].Owns(0, 1, q);
  }

  lemma AnswerFrees()
    ensures FreesCode(S13(), 0) && Ent(S13(), 1, 0).IsMapped()
    ensures UnmapCall(S13(), S13().ops[0]).freed == [Ent(S13(), 1, 0).Location()]
  {
    var e := Entry(2, 0, true, {}, {1});
    assert {1} - Pages(1, 2) == {};
    ClunmapOne(Two(e, Entry(2, 0, true, {1}, {1})), 2, 3, 1);
  }

  /** The whole run, and its last step, which frees a cluster that object 1 holds. */
  lemma CodeFreesOther()
    ensures Initial(S0()) && Leads(S0(), Create(0, 2), S1()) && Leads(S1(), WriteMap(0, 0, 3, [30], MEM, Some(OWN)), S2())
    ensures Leads(S2(), Issue(0), S3()) && Leads(S3(), WriteDone(0, 0), S4()) && Leads(S4(), Create(1, 1), S5())
    ensures Leads(S5(), WriteMap(0, 1, 0, [40], MEM, Some(OTHER)), S6()) && Leads(S6(), Issue(0), S7()) && Leads(S7(), WriteDone(0, 0), S8())
    ensures Leads(S8(), ReadMap(0, 0, 3, 1), S9()) && Leads(S9(), ReadDevice(0), S10())
    ensures Leads(S10(), WriteMap(1, 0, 1, [11, 12], MEM, Some(FIRST)), S11()) && Leads(S11(), WriteDone(1, 2), S12())
    ensures Leads(S12(), FailMark(0, 2, 1, 2), S13()) && FreesCode(S13(), 0)
    ensures Ent(S13(), 1, 0).IsMapped() && UnmapCall(S13(), S13().ops[0]).freed == [Ent(S13(), 1, 0).Location()]
    ensures !Spared(S12(), FailMark(0, 2, 1, 2))
  {
    PageMapped();
    PageStored();
    OtherStored();
    ReadWaits();
    WriteSent();
    WriteRefused();
    RestFails();
    AnswerFrees();
  }
}
