/** Why a write error must not give back a cluster to which another write has still to go: a run in which
    object 1 writes 22 and reads back 11. The first write of object 0 fails, its cluster is given
    back and claimed by object 1, and then the second write of object 0 reaches the device. */
module PagerErrors {
  import opened PagingSegments
  import opened Slots
  import opened Pager
  import opened PagerRuns
  import opened PagerStore
  import opened PagerExact

  const AT: Loc := Loc(0, 1)

  function Op0(): Op { Writing(0, 0, 0, 0, [10], AT, false) }
  function Op1(issued: bool): Op { Writing(0, 1, 0, 1, [11], AT, issued) }
  function Op2(issued: bool): Op { Writing(1, 1, 0, 1, [22], AT, issued) }
  function Op3(got: Option<seq<Content>>): Op { Reading(1, 1, 0, 1, 1, AT, got) }

  function Used(b: bool): seq<Seg> { [Seg(2, if b then {1} else {})] }

  /** An object of one cluster. */
  function One(e: Entry): Table { [Some(e)] }

  const FAILED: Entry := Entry(5, 0, true, {}, {0, 1})
  const HOLDS: Entry := Entry(1, 0, false, {1}, {1})

  function S0(): State { State(2, Used(false), map[], map[], map[], {}) }
  function S1(): State { S0().(objs := map[0 := One(CLEAR)]) }
  function S2(): State { S0().(objs := map[0 := One(CLEAR), 1 := One(CLEAR)]) }
  function S3(): State {
    State(2, Used(true), map[0 := One(Entry(1, 0, false, {}, {0})), 1 := One(CLEAR)], map[], map[0 := Op0()], {})
  }
  function S4(): State {
    State(2, Used(true), map[0 := One(Entry(1, 0, false, {}, {0, 1})), 1 := One(CLEAR)], map[], map[0 := Op0(), 1 := Op1(false)], {})
  }
  function S5(): State {
    State(2, Used(false), map[0 := One(FAILED), 1 := One(CLEAR)], map[], map[1 := Op1(false)], {})
  }
  function S6(): State {
    State(2, Used(true), map[0 := One(FAILED), 1 := One(Entry(1, 0, false, {}, {1}))], map[],
          map[1 := Op1(false), 2 := Op2(false)], {})
  }
  function S7(): State { S6().(disk := map[(AT, 1) := 22], ops := map[1 := Op1(false), 2 := Op2(true)]) }
  function S8(): State {
    State(2, Used(true), map[0 := One(FAILED), 1 := One(HOLDS)], map[(AT, 1) := 22], map[1 := Op1(false)], {})
  }
  function S9(): State { S8().(disk := map[(AT, 1) := 11], ops := map[1 := Op1(true)]) }
  function S10(): State { S9().(ops := map[1 := Op1(true), 3 := Op3(None)]) }
  function S11(): State { S9().(ops := map[1 := Op1(true), 3 := Op3(Some([11]))]) }

  lemma Creations()
    ensures Leads(S0(), Create(0, 1), S1())
    ensures Leads(S1(), Create(1, 1), S2())
  {
    assert Created(S0(), 0, 1).objs[0] == One(CLEAR);
    assert Created(S1(), 1, 1).objs[1] == One(CLEAR);
  }

  lemma FirstWrite()
    ensures Leads(S2(), WriteMap(0, 0, 0, [10], MEM, Some(AT)), S3())
  {
    assert {} + Pages(0, 1) == {0};
    var out := Clmap(One(CLEAR), 2, 0, Alloc, 1, 0, MEM, Some(AT));
    assert out.table == One(Entry(1, 0, false, {}, {0})) && out.asked && out.reply.Found? && out.reply.at == AT;
    assert [10][..1] == [10];
    var marked := Mark(Used(false), AT);
    assert |marked| == 1 && marked[0].ncls == 2 && marked[0].used == {1};
    assert Mark(Used(false), AT) == Used(true);
    assert S2().objs[0 := out.table] == S3().objs;
  }

  lemma SecondWrite()
    ensures Leads(S3(), WriteMap(1, 0, 1, [11], MEM, None), S4())
  {
    assert {0} + Pages(1, 2) == {0, 1};
    var e := Entry(1, 0, false, {}, {0});
    assert ClmapEntry(e, 2, 1, Alloc, 1, 0, None).entry == Entry(1, 0, false, {}, {0, 1});
    var out := Clmap(One(e), 2, 1, Alloc, 1, 0, MEM, None);
    assert out.table == One(Entry(1, 0, false, {}, {0, 1})) && !out.asked && out.reply.Found? && out.reply.at == AT;
    assert [11][..1] == [11];
    assert S3().objs[0 := out.table] == S4().objs;
  }

  lemma FirstFails()
    ensures Leads(S4(), WriteDone(0, 5), S5())
    ensures !Clean(S4(), WriteDone(0, 5))
  {
    var out := Clmap(One(Entry(1, 0, false, {}, {0, 1})), 2, 0, Find, 1, 5, NOMEM, None);
    assert out.table == One(FAILED) && out.freed == Some(AT);
    assert Unmark(Used(true), Some(AT)) == Used(false) by { assert {1} - {1} == {}; }
    assert S4().objs[0 := out.table] == S5().objs;
    assert S4().ops - {0} == S5().ops;
    assert 1 in S4().ops;
  }

  lemma Reclaimed()
    ensures Leads(S5(), WriteMap(2, 1, 1, [22], MEM, Some(AT)), S6())
  {
    assert Pages(1, 2) == {1};
    var out := Clmap(One(CLEAR), 2, 1, Alloc, 1, 0, MEM, Some(AT));
    assert out.table == One(Entry(1, 0, false, {}, {1}));
    assert [22][..1] == [22];
  }

  lemma ThirdIssued()
    ensures Leads(S6(), Issue(2), S7())
  {
    IssueOne(S6(), 2, 22);
  }

  lemma ThirdDone()
    ensures Leads(S7(), WriteDone(2, 0), S8())
    ensures ActionOf(S7(), WriteDone(2, 0)) == Stored(1, 0, 1, [22])
  {
    assert {} + Pages(1, 2) == {1};
    var out := Clmap(One(Entry(1, 0, false, {}, {1})), 2, 1, Find, 1, 0, NOMEM, None);
    assert out.table == One(HOLDS) && out.freed == None;
    assert S7().objs[1 := out.table] == S8().objs;
    assert S7().ops - {2} == S8().ops;
  }

  lemma SecondWritten()
    ensures Leads(S8(), Issue(1), S9())
  {
    IssueOne(S8(), 1, 11);
  }

  lemma ReadStarts()
    ensures Leads(S9(), ReadMap(3, 1, 1, 1), S10())
  {
    assert Shift({1}, 1) == {0};
    var out := Clmap(One(HOLDS), 2, 1, Find, 0, 0, NOMEM, None);
    assert out.reply.bmap == {0};
    assert Run({0}, true, 0, 1) == 1;
  }

  lemma ReadReturns()
    ensures Leads(S10(), ReadDevice(3), S11())
  {
    var got := seq(1, j requires 0 <= j < 1 => S10().disk[(AT, 1 + j)]);
    assert got[0] == S10().disk[(AT, 1)] == 11;
    assert got == [11];
  }

  lemma ReadSupplies()
    ensures Enabled(S11(), Supply(3)) && Next(S11(), Supply(3)).1 == Supplied(1, 0, 1, [11])
  {
  }

  lemma UntilReclaimed()
    ensures Initial(S0()) && Leads(S0(), Create(0, 1), S1()) && Leads(S1(), Create(1, 1), S2())
    ensures Leads(S2(), WriteMap(0, 0, 0, [10], MEM, Some(AT)), S3()) && Leads(S3(), WriteMap(1, 0, 1, [11], MEM, None), S4())
    ensures Leads(S4(), WriteDone(0, 5), S5()) && Leads(S5(), WriteMap(2, 1, 1, [22], MEM, Some(AT)), S6())
  {
    Creations();
    FirstWrite();
    SecondWrite();
    FirstFails();
    Reclaimed();
  }

  lemma UntilOverwritten()
    ensures Leads(S6(), Issue(2), S7()) && Leads(S7(), WriteDone(2, 0), S8()) && Leads(S8(), Issue(1), S9())
    ensures ActionOf(S7(), WriteDone(2, 0)) == Stored(1, 0, 1, [22])
  {
    ThirdIssued();
    ThirdDone();
    SecondWritten();
  }

  /** The whole run: object 1 stores 22 in its page, writes nothing else, and is supplied 11. The
      fifth step is the error that should not have come while a write to the same cluster was out. */
  lemma ErrorMixesObjects()
    ensures Initial(S0()) && Leads(S0(), Create(0, 1), S1()) && Leads(S1(), Create(1, 1), S2())
    ensures Leads(S2(), WriteMap(0, 0, 0, [10], MEM, Some(AT)), S3()) && Leads(S3(), WriteMap(1, 0, 1, [11], MEM, None), S4())
    ensures Leads(S4(), WriteDone(0, 5), S5()) && Leads(S5(), WriteMap(2, 1, 1, [22], MEM, Some(AT)), S6())
    ensures Leads(S6(), Issue(2), S7()) && Leads(S7(), WriteDone(2, 0), S8()) && Leads(S8(), Issue(1), S9())
    ensures Leads(S9(), ReadMap(3, 1, 1, 1), S10()) && Leads(S10(), ReadDevice(3), S11())
    ensures ActionOf(S7(), WriteDone(2, 0)) == Stored(1, 0, 1, [22])
    ensures Enabled(S11(), Supply(3)) && Next(S11(), Supply(3)).1 == Supplied(1, 0, 1, [11])
    ensures !Clean(S4(), WriteDone(0, 5))
  {
    UntilReclaimed();
    FirstFails();
    UntilOverwritten();
    ReadStarts();
    ReadReturns();
    ReadSupplies();
  }
}
