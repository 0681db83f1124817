/** The course catalogue tables of utils/db_api/courses.py: Fakultet
    (faculties), Mavzu (topics of a faculty) and Lesson (files). Each table is
    a sequence of records in rowid order; AUTOINCREMENT ids come from a
    counter per table that never goes back. Foreign keys are declared in the
    schema but never enforced (the connection does not enable them), so no
    operation here checks or cascades them. */
module CourseStore {
  import opened PyStr
  import opened Ordering
  import opened Relations

  datatype Fakultet = Fakultet(id: int, name: string)
  datatype Mavzu = Mavzu(id: int, fakultetId: int, name: string)
  datatype Lesson = Lesson(
    id: int, fakultetId: int, mavzuId: Option<int>, code: string, title: string,
    fileId: string, fileName: Option<string>, fileSize: Option<int>,
    createdAt: int, countDownload: nat)

  /** A row of get_dars_by_fakultet: code, title, count_download and the topic
      name from the LEFT JOIN (NULL when the lesson has no topic row). */
  datatype DarsRow = DarsRow(code: string, title: string, countDownload: nat, mavzuName: Option<string>)

  /** A row of get_dars_by_mavzu: code, title, count_download. */
  datatype TopicRow = TopicRow(code: string, title: string, countDownload: nat)

  // Rowid order and the UNIQUE keys, as relations between an earlier and a later row.
  predicate FakultetBefore(a: Fakultet, b: Fakultet) { a.id < b.id && a.name != b.name }
  predicate MavzuBefore(a: Mavzu, b: Mavzu) { a.id < b.id && (a.fakultetId != b.fakultetId || a.name != b.name) }
  predicate LessonBefore(a: Lesson, b: Lesson) { a.id < b.id && a.code != b.code }

  // WHERE clauses.
  function FakultetNamed(name: string): Fakultet -> bool { (f: Fakultet) => f.name == name }
  function FakultetIdIsNot(id: int): Fakultet -> bool { (f: Fakultet) => f.id != id }
  function MavzuOf(fakultetId: int): Mavzu -> bool { (m: Mavzu) => m.fakultetId == fakultetId }
  function MavzuKey(fakultetId: int, name: string): Mavzu -> bool { (m: Mavzu) => m.fakultetId == fakultetId && m.name == name }
  function MavzuWithId(id: int): Mavzu -> bool { (m: Mavzu) => m.id == id }
  function LessonCoded(code: string): Lesson -> bool { (l: Lesson) => l.code == code }
  function LessonCodeIsNot(code: string): Lesson -> bool { (l: Lesson) => l.code != code }
  function LessonOf(fakultetId: int): Lesson -> bool { (l: Lesson) => l.fakultetId == fakultetId }

  // ORDER BY clauses.
  predicate FakultetNameLe(a: Fakultet, b: Fakultet) { StrLe(a.name, b.name) }
  predicate MavzuNameLe(a: Mavzu, b: Mavzu) { StrLe(a.name, b.name) }
  predicate LessonTitleLe(a: Lesson, b: Lesson) { StrLe(a.title, b.title) }
  /** ORDER BY m.name, l.title, with NULL topic names first. */
  predicate DarsRowLe(a: DarsRow, b: DarsRow) {
    if a.mavzuName == b.mavzuName then StrLe(a.title, b.title) else OptStrLe(a.mavzuName, b.mavzuName)
  }

  lemma FakultetNameLeTotal()
    ensures TotalPreorder(FakultetNameLe)
  {
    forall a, b ensures FakultetNameLe(a, b) || FakultetNameLe(b, a) { StrLeTotal(a.name, b.name); }
    forall a, b, c | FakultetNameLe(a, b) && FakultetNameLe(b, c) ensures FakultetNameLe(a, c) {
      StrLeTransitive(a.name, b.name, c.name);
    }
  }

  lemma MavzuNameLeTotal()
    ensures TotalPreorder(MavzuNameLe)
  {
    forall a, b ensures MavzuNameLe(a, b) || MavzuNameLe(b, a) { StrLeTotal(a.name, b.name); }
    forall a, b, c | MavzuNameLe(a, b) && MavzuNameLe(b, c) ensures MavzuNameLe(a, c) {
      StrLeTransitive(a.name, b.name, c.name);
    }
  }

  lemma LessonTitleLeTotal()
    ensures TotalPreorder(LessonTitleLe)
  {
    forall a, b ensures LessonTitleLe(a, b) || LessonTitleLe(b, a) { StrLeTotal(a.title, b.title); }
    forall a, b, c | LessonTitleLe(a, b) && LessonTitleLe(b, c) ensures LessonTitleLe(a, c) {
      StrLeTransitive(a.title, b.title, c.title);
    }
  }

  lemma DarsRowLeTotal()
    ensures TotalPreorder(DarsRowLe)
  {
    OptStrLeTotalOrder();
    forall a, b ensures DarsRowLe(a, b) || DarsRowLe(b, a) { StrLeTotal(a.title, b.title); }
    forall a, b, c | DarsRowLe(a, b) && DarsRowLe(b, c) ensures DarsRowLe(a, c) {
      if a.mavzuName == b.mavzuName == c.mavzuName {
        StrLeTransitive(a.title, b.title, c.title);
      }
    }
  }

  /** The topic name a lesson shows through LEFT JOIN Mavzu m ON l.mavzu_id = m.id. */
  function TopicName(ms: seq<Mavzu>, l: Lesson): Option<string>
  {
    match l.mavzuId
    case None => None
    case Some(mid) =>
      match First(ms, MavzuWithId(mid))
      case None => None
      case Some(m) => Some(m.name)
  }

  function JoinTopics(ms: seq<Mavzu>, ls: seq<Lesson>): (r: seq<DarsRow>)
    ensures |r| == |ls|
    ensures forall i :: 0 <= i < |ls| ==>
      r[i] == DarsRow(ls[i].code, ls[i].title, ls[i].countDownload, TopicName(ms, ls[i]))
  {
    seq(|ls|, i requires 0 <= i < |ls| => DarsRow(ls[i].code, ls[i].title, ls[i].countDownload, TopicName(ms, ls[i])))
  }

  function TopicRows(ls: seq<Lesson>): (r: seq<TopicRow>)
    ensures |r| == |ls|
    ensures forall i :: 0 <= i < |ls| ==> r[i] == TopicRow(ls[i].code, ls[i].title, ls[i].countDownload)
  {
    seq(|ls|, i requires 0 <= i < |ls| => TopicRow(ls[i].code, ls[i].title, ls[i].countDownload))
  }

  /** The inner join of get_dars_by_mavzu: the lesson belongs to the faculty
      and its topic row exists and has the given name. The topic's own
      faculty is not compared. */
  function InTopic(ms: seq<Mavzu>, fakultetId: int, name: string): Lesson -> bool
  {
    (l: Lesson) => l.fakultetId == fakultetId && TopicName(ms, l) == Some(name)
  }

  /** ORDER BY l.title over a selection of lessons. */
  function TitleSorted(sel: seq<Lesson>): (r: seq<Lesson>)
    ensures forall l :: l in r <==> l in sel
    ensures multiset(r) == multiset(sel)
    ensures SortedBy(r, LessonTitleLe)
  {
    LessonTitleLeTotal();
    SortBySorted(sel, LessonTitleLe);
    SortByMembers(sel, LessonTitleLe);
    SortBy(sel, LessonTitleLe)
  }

  /** Projecting two sequences of lessons: the projection of the whole is
      the projections of the parts. */
  lemma TopicRowsConcat(a: seq<Lesson>, b: seq<Lesson>)
    ensures TopicRows(a + b) == TopicRows(a) + TopicRows(b)
  {
    var l, r := TopicRows(a + b), TopicRows(a) + TopicRows(b);
    forall i | 0 <= i < |l| ensures l[i] == r[i] {
      if i < |a| {
        assert (a + b)[i] == a[i];
      } else {
        assert (a + b)[i] == b[i - |a|];
      }
    }
  }

  /** Taking the same element out of two permutations leaves permutations. */
  lemma RemoveMatching(a: seq<Lesson>, b: seq<Lesson>, k: nat)
    requires multiset(a) == multiset(b) && a != [] && k < |b| && b[k] == a[0]
    ensures multiset(a[1..]) == multiset(b[..k] + b[k + 1..])
  {
    var x := a[0];
    assert a == [x] + a[1..];
    assert b == b[..k] + [x] + b[k + 1..];
    assert multiset(a[1..]) == multiset(a) - multiset{x};
    assert multiset(b[..k] + b[k + 1..]) == multiset(b) - multiset{x};
  }

  /** The rows of a sequence with one lesson taken out, plus that lesson's row. */
  lemma TopicRowsSplice(b: seq<Lesson>, k: nat)
    requires k < |b|
    ensures multiset(TopicRows(b)) == multiset(TopicRows(b[..k] + b[k + 1..])) + multiset(TopicRows([b[k]]))
  {
    var front, back := b[..k], b[k + 1..];
    assert b == front + ([b[k]] + back);
    TopicRowsConcat(front, [b[k]] + back);
    TopicRowsConcat([b[k]], back);
    TopicRowsConcat(front, back);
  }

  /** Reordering the lessons reorders their rows the same way. */
  lemma {:induction false} TopicRowsPermute(a: seq<Lesson>, b: seq<Lesson>)
    requires multiset(a) == multiset(b)
    ensures multiset(TopicRows(a)) == multiset(TopicRows(b))
    decreases |a|
  {
    if a != [] {
      assert a[0] in multiset(b);
      var k :| 0 <= k < |b| && b[k] == a[0];
      RemoveMatching(a, b, k);
      TopicRowsPermute(a[1..], b[..k] + b[k + 1..]);
      assert a == [a[0]] + a[1..];
      TopicRowsConcat([a[0]], a[1..]);
      TopicRowsSplice(b, k);
    }
  }

  /** The rows of get_dars_by_mavzu are the rows of the topic's lessons, each
      exactly once (as a multiset), every one of them with a topic, in title
      order. */
  lemma TopicListingSpec(ls: seq<Lesson>, ms: seq<Mavzu>, fakultetId: int, name: string)
    ensures var sel := Filter(ls, InTopic(ms, fakultetId, name));
      var r := TopicRows(TitleSorted(sel));
      && multiset(r) == multiset(TopicRows(sel))
      && (forall row :: row in r ==>
            exists l :: l in ls && InTopic(ms, fakultetId, name)(l) && l.mavzuId.Some? &&
                        row == TopicRow(l.code, l.title, l.countDownload))
      && (forall i, j :: 0 <= i < j < |r| ==> StrLe(r[i].title, r[j].title))
  {
    var sel := Filter(ls, InTopic(ms, fakultetId, name));
    var sorted := TitleSorted(sel);
    var r := TopicRows(sorted);
    TopicRowsPermute(sorted, sel);
    forall row | row in r
      ensures exists l :: l in ls && InTopic(ms, fakultetId, name)(l) && l.mavzuId.Some? &&
                          row == TopicRow(l.code, l.title, l.countDownload)
    {
      var k :| 0 <= k < |r| && r[k] == row;
      var l := sorted[k];
      assert l in sorted;
      assert l in sel;
    }
    forall i, j | 0 <= i < j < |r| ensures StrLe(r[i].title, r[j].title) {
      assert LessonTitleLe(sorted[i], sorted[j]);
    }
  }

  /** A row with the next id and an unused code may be appended: the table
      stays ordered by id with distinct codes, and the id bound moves up by one. */
  lemma AppendKeepsOrder(ls: seq<Lesson>, row: Lesson, nextId: int)
    requires SortedBy(ls, LessonBefore) && (forall l :: l in ls ==> l.id < nextId)
    requires row.id == nextId && First(ls, LessonCoded(row.code)).None?
    ensures SortedBy(ls + [row], LessonBefore) && forall l :: l in ls + [row] ==> l.id < nextId + 1
  {
    forall l | l in ls ensures LessonBefore(l, row) {
      assert !LessonCoded(row.code)(l);
    }
    var r := ls + [row];
    forall i, j | 0 <= i < j < |r| ensures LessonBefore(r[i], r[j]) {
      if j == |ls| {
        assert r[i] in ls;
      } else {
        assert r[i] == ls[i] && r[j] == ls[j];
      }
    }
  }

  /** A bump keeps every id and code, so the table's order and its id bound hold after it. */
  lemma BumpKeepsIds(ls: seq<Lesson>, code: string, nextId: int)
    requires SortedBy(ls, LessonBefore) && forall l :: l in ls ==> l.id < nextId
    ensures SortedBy(Bump(ls, code), LessonBefore) && forall l :: l in Bump(ls, code) ==> l.id < nextId
  {
    var r := Bump(ls, code);
    assert forall i :: 0 <= i < |ls| ==> r[i].id == ls[i].id && r[i].code == ls[i].code;
    forall l | l in r ensures l.id < nextId {
      var k :| 0 <= k < |r| && r[k] == l;
      assert ls[k] in ls;
    }
  }

  /** SUM(count_download), with 0 for an empty table. */
  function TotalDownloads(ls: seq<Lesson>): nat
  {
    if ls == [] then 0 else ls[0].countDownload + TotalDownloads(ls[1..])
  }

  /** Every lesson's count is part of the total. */
  lemma {:induction false} TotalCoversEach(ls: seq<Lesson>)
    ensures forall i :: 0 <= i < |ls| ==> ls[i].countDownload <= TotalDownloads(ls)
  {
    if ls != [] {
      TotalCoversEach(ls[1..]);
      forall i | 0 < i < |ls| ensures ls[i].countDownload <= TotalDownloads(ls) {
        assert ls[i] == ls[1..][i - 1];
      }
    }
  }

  /** The table after UPDATE Lesson SET count_download = count_download + 1 WHERE code=?. */
  function Bump(ls: seq<Lesson>, code: string): (r: seq<Lesson>)
    ensures |r| == |ls|
    ensures forall i :: 0 <= i < |ls| ==>
      r[i] == if ls[i].code == code then ls[i].(countDownload := ls[i].countDownload + 1) else ls[i]
  {
    if ls == [] then []
    else
      var head := if ls[0].code == code then ls[0].(countDownload := ls[0].countDownload + 1) else ls[0];
      [head] + Bump(ls[1..], code)
  }

  /** Each matching lesson adds one to the total. */
  lemma {:induction false} BumpTotal(ls: seq<Lesson>, code: string)
    ensures TotalDownloads(Bump(ls, code)) == TotalDownloads(ls) + |Filter(ls, LessonCoded(code))|
  {
    if ls != [] {
      BumpTotal(ls[1..], code);
      assert Bump(ls, code)[1..] == Bump(ls[1..], code);
    }
  }

  /** The topic table after INSERT OR IGNORE of (fakultetId, name). */
  function WithMavzu(ms: seq<Mavzu>, nextId: int, fakultetId: int, name: string): seq<Mavzu>
  {
    if First(ms, MavzuKey(fakultetId, name)).Some? then ms else ms + [Mavzu(nextId, fakultetId, name)]
  }

  /** INSERT OR IGNORE is idempotent: a second insert of the same pair is ignored. */
  lemma WithMavzuIdempotent(ms: seq<Mavzu>, n1: int, n2: int, fakultetId: int, name: string)
    ensures First(WithMavzu(ms, n1, fakultetId, name), MavzuKey(fakultetId, name)).Some?
    ensures WithMavzu(WithMavzu(ms, n1, fakultetId, name), n2, fakultetId, name) == WithMavzu(ms, n1, fakultetId, name)
  {
    var w := WithMavzu(ms, n1, fakultetId, name);
    assert w[|w| - 1] in w;
  }

  class CourseDatabase {
    var fakultets: seq<Fakultet>
    var mavzular: seq<Mavzu>
    var lessons: seq<Lesson>
    var nextFakultetId: int
    var nextMavzuId: int
    var nextLessonId: int

    ghost predicate Valid()
      reads this
    {
      && SortedBy(fakultets, FakultetBefore)
      && SortedBy(mavzular, MavzuBefore)
      && SortedBy(lessons, LessonBefore)
      && (forall f :: f in fakultets ==> f.id < nextFakultetId)
      && (forall m :: m in mavzular ==> m.id < nextMavzuId)
      && (forall l :: l in lessons ==> l.id < nextLessonId)
    }

    /** create_tables on a fresh database. */
    constructor ()
      ensures Valid()
      ensures fakultets == [] && mavzular == [] && lessons == []
    {
      fakultets, mavzular, lessons := [], [], [];
      nextFakultetId, nextMavzuId, nextLessonId := 1, 1, 1;
    }

    // ==================== Fakultet ====================

    /** INSERT INTO Fakultet(name): ok is false where the UNIQUE name
        constraint raises, and then nothing is inserted. */
    method AddFakultet(name: string) returns (ok: bool)
      requires Valid()
      modifies this
      ensures Valid()
      ensures ok <==> old(GetFakultetByName(name)).None?
      ensures ok ==> fakultets == old(fakultets) + [Fakultet(old(nextFakultetId), name)]
      ensures !ok ==> fakultets == old(fakultets)
      ensures mavzular == old(mavzular) && lessons == old(lessons)
    {
      if First(fakultets, FakultetNamed(name)).Some? {
        return false;
      }
      var row := Fakultet(nextFakultetId, name);
      forall f | f in fakultets ensures FakultetBefore(f, row) {
        assert !FakultetNamed(name)(f);
      }
      fakultets := fakultets + [row];
      nextFakultetId := nextFakultetId + 1;
      ok := true;
    }

    /** SELECT id, name FROM Fakultet ORDER BY name: every faculty once, by name. */
    function GetAllFakultetlar(): (r: seq<Fakultet>)
      reads this
      requires Valid()
      ensures multiset(r) == multiset(fakultets)
      ensures SortedBy(r, FakultetNameLe)
    {
      FakultetNameLeTotal();
      SortBySorted(fakultets, FakultetNameLe);
      SortBy(fakultets, FakultetNameLe)
    }

    /** SELECT id, name FROM Fakultet WHERE name=? */
    function GetFakultetByName(name: string): (r: Option<Fakultet>)
      reads this
      ensures r.Some? <==> exists f :: f in fakultets && f.name == name
      ensures r.Some? ==> r.value in fakultets && r.value.name == name
    {
      First(fakultets, FakultetNamed(name))
    }

    /** DELETE FROM Fakultet WHERE id=? (topics and lessons stay). */
    method DeleteFakultet(fakultetId: int)
      requires Valid()
      modifies this
      ensures Valid()
      ensures fakultets == Filter(old(fakultets), FakultetIdIsNot(fakultetId))
      ensures mavzular == old(mavzular) && lessons == old(lessons)
    {
      FilterSorted(fakultets, FakultetIdIsNot(fakultetId), FakultetBefore);
      fakultets := Filter(fakultets, FakultetIdIsNot(fakultetId));
    }

    // ==================== Mavzu ====================

    /** INSERT OR IGNORE INTO Mavzu(fakultet_id, name). */
    method AddMavzu(fakultetId: int, name: string)
      requires Valid()
      modifies this
      ensures Valid()
      ensures mavzular == WithMavzu(old(mavzular), old(nextMavzuId), fakultetId, name)
      ensures fakultets == old(fakultets) && lessons == old(lessons)
      ensures nextMavzuId >= old(nextMavzuId)
    {
      if First(mavzular, MavzuKey(fakultetId, name)).None? {
        var row := Mavzu(nextMavzuId, fakultetId, name);
        forall m | m in mavzular ensures MavzuBefore(m, row) {
          assert !MavzuKey(fakultetId, name)(m);
        }
        mavzular := mavzular + [row];
        nextMavzuId := nextMavzuId + 1;
      }
    }

    /** SELECT id, name FROM Mavzu WHERE fakultet_id=? ORDER BY name. */
    function GetMavzularByFakultet(fakultetId: int): (r: seq<Mavzu>)
      reads this
      requires Valid()
      ensures forall m :: m in r <==> m in mavzular && m.fakultetId == fakultetId
      ensures SortedBy(r, MavzuNameLe)
    {
      MavzuNameLeTotal();
      SortBySorted(Filter(mavzular, MavzuOf(fakultetId)), MavzuNameLe);
      SortByMembers(Filter(mavzular, MavzuOf(fakultetId)), MavzuNameLe);
      SortBy(Filter(mavzular, MavzuOf(fakultetId)), MavzuNameLe)
    }

    /** Look up the (faculty, name) topic; insert it when missing and look again. */
    method GetOrCreateMavzu(fakultetId: int, name: string) returns (id: Option<int>)
      requires Valid()
      modifies this
      ensures Valid()
      ensures mavzular == WithMavzu(old(mavzular), old(nextMavzuId), fakultetId, name)
      ensures fakultets == old(fakultets) && lessons == old(lessons)
      ensures id.Some?
      ensures Mavzu(id.value, fakultetId, name) in mavzular
      ensures old(First(mavzular, MavzuKey(fakultetId, name))).Some? ==>
        mavzular == old(mavzular) && id == Some(old(First(mavzular, MavzuKey(fakultetId, name))).value.id)
    {
      var found := First(mavzular, MavzuKey(fakultetId, name));
      if found.Some? {
        return Some(found.value.id);
      }
      AddMavzu(fakultetId, name);
      WithMavzuIdempotent(old(mavzular), old(nextMavzuId), nextMavzuId, fakultetId, name);
      found := First(mavzular, MavzuKey(fakultetId, name));
      id := if found.Some? then Some(found.value.id) else None;
    }

    // ==================== Lesson ====================

    /** add_dars: when the topic name is truthy, the topic is found or created
        first (that write stays even if the lesson insert then fails); the
        INSERT then raises on a duplicate code and otherwise appends a row
        with count_download 0. */
    method AddDars(fakultetId: int, code: string, title: string, fileId: string,
                   mavzuName: Option<string>, fileName: Option<string>, fileSize: Option<int>,
                   now: int) returns (ok: bool)
      requires Valid()
      modifies this
      ensures Valid()
      ensures fakultets == old(fakultets)
      ensures mavzuName.None? || mavzuName.value == [] ==> mavzular == old(mavzular)
      ensures mavzuName.Some? && mavzuName.value != [] ==>
        mavzular == WithMavzu(old(mavzular), old(nextMavzuId), fakultetId, mavzuName.value)
      ensures ok <==> old(SearchDarsByCode(code)).None?
      ensures !ok ==> lessons == old(lessons)
      ensures ok ==> |lessons| == |old(lessons)| + 1 && lessons[..|old(lessons)|] == old(lessons)
      ensures ok ==> var l := lessons[|lessons| - 1];
        && l == Lesson(l.id, fakultetId, l.mavzuId, code, title, fileId, fileName, fileSize, now, 0)
        && (l.mavzuId.Some? <==> mavzuName.Some? && mavzuName.value != [])
        && (l.mavzuId.Some? ==> Mavzu(l.mavzuId.value, fakultetId, mavzuName.value) in mavzular)
    {
      var mavzuId: Option<int> := None;
      if mavzuName.Some? && mavzuName.value != [] {
        mavzuId := GetOrCreateMavzu(fakultetId, mavzuName.value);
      }
      if First(lessons, LessonCoded(code)).Some? {
        return false;
      }
      var row := Lesson(nextLessonId, fakultetId, mavzuId, code, title, fileId, fileName, fileSize, now, 0);
      AppendKeepsOrder(lessons, row, nextLessonId);
      lessons := lessons + [row];
      nextLessonId := nextLessonId + 1;
      ok := true;
    }

    /** get_dars_by_fakultet: the faculty's lessons joined with their topic
        names, ordered by topic name (NULL first) and then title. */
    function GetDarsByFakultet(fakultetId: int): (r: seq<DarsRow>)
      reads this
      requires Valid()
      ensures multiset(r) == multiset(JoinTopics(mavzular, Filter(lessons, LessonOf(fakultetId))))
      ensures SortedBy(r, DarsRowLe)
      ensures |r| == CountDarsByFakultet(fakultetId)
    {
      var rows := JoinTopics(mavzular, Filter(lessons, LessonOf(fakultetId)));
      DarsRowLeTotal();
      SortBySorted(rows, DarsRowLe);
      SortBy(rows, DarsRowLe)
    }

    /** get_dars_by_mavzu: the faculty's lessons whose topic row is named
        `name`, ordered by title; a lesson without a topic never appears. */
    function GetDarsByMavzu(fakultetId: int, name: string): (r: seq<TopicRow>)
      reads this
      requires Valid()
      ensures multiset(r) == multiset(TopicRows(Filter(lessons, InTopic(mavzular, fakultetId, name))))
      ensures forall row :: row in r ==>
                exists l :: l in lessons && InTopic(mavzular, fakultetId, name)(l) && l.mavzuId.Some? &&
                            row == TopicRow(l.code, l.title, l.countDownload)
      ensures forall i, j :: 0 <= i < j < |r| ==> StrLe(r[i].title, r[j].title)
    {
      TopicListingSpec(lessons, mavzular, fakultetId, name);
      TopicRows(TitleSorted(Filter(lessons, InTopic(mavzular, fakultetId, name))))
    }

    /** SELECT * FROM Lesson WHERE code=? */
    function SearchDarsByCode(code: string): (r: Option<Lesson>)
      reads this
      ensures r.Some? <==> exists l :: l in lessons && l.code == code
      ensures r.Some? ==> r.value in lessons && r.value.code == code
    {
      First(lessons, LessonCoded(code))
    }

    /** DELETE FROM Lesson WHERE code=? */
    method DeleteDars(code: string)
      requires Valid()
      modifies this
      ensures Valid()
      ensures lessons == Filter(old(lessons), LessonCodeIsNot(code))
      ensures forall l :: l in lessons <==> l in old(lessons) && l.code != code
      ensures fakultets == old(fakultets) && mavzular == old(mavzular)
    {
      FilterSorted(lessons, LessonCodeIsNot(code), LessonBefore);
      lessons := Filter(lessons, LessonCodeIsNot(code));
    }

    /** UPDATE Lesson SET count_download = count_download + 1 WHERE code=? */
    method UpdateDownloadCount(code: string)
      requires Valid()
      modifies this
      ensures Valid()
      ensures lessons == Bump(old(lessons), code)
      ensures fakultets == old(fakultets) && mavzular == old(mavzular)
    {
      BumpKeepsIds(lessons, code, nextLessonId);
      lessons := Bump(lessons, code);
    }

    // ==================== Statistics ====================

    /** SELECT COUNT(*) FROM Lesson. */
    function CountAllDarslar(): (n: nat)
      reads this
    {
      |lessons|
    }

    /** SELECT COUNT(*) FROM Lesson WHERE fakultet_id=? */
    function CountDarsByFakultet(fakultetId: int): (n: nat)
      reads this
      ensures n <= CountAllDarslar()
      ensures n == 0 <==> forall l :: l in lessons ==> l.fakultetId != fakultetId
    {
      var sel := Filter(lessons, LessonOf(fakultetId));
      assert sel != [] ==> sel[0] in sel;
      |sel|
    }

    /** SELECT SUM(count_download) FROM Lesson, or 0 for an empty table. */
    function GetTotalDownloads(): (n: nat)
      reads this
      ensures lessons == [] ==> n == 0
      ensures forall i :: 0 <= i < |lessons| ==> lessons[i].countDownload <= n
    {
      TotalCoversEach(lessons);
      TotalDownloads(lessons)
    }
  }

  /** The codes are a key: at most one lesson carries a given code. */
  lemma CodeIsKey(ls: seq<Lesson>, code: string)
    requires SortedBy(ls, LessonBefore)
    ensures |Filter(ls, LessonCoded(code))| == if First(ls, LessonCoded(code)).Some? then 1 else 0
  {
    FilterAtMostOne(ls, LessonCoded(code), LessonBefore);
    var f := Filter(ls, LessonCoded(code));
    if f != [] { assert f[0] in f; }
  }

  /** Bumping an existing code adds exactly one download to the total; an
      unknown code changes nothing. */
  lemma BumpAddsOne(ls: seq<Lesson>, code: string)
    requires SortedBy(ls, LessonBefore)
    ensures TotalDownloads(Bump(ls, code)) ==
      TotalDownloads(ls) + (if First(ls, LessonCoded(code)).Some? then 1 else 0)
  {
    BumpTotal(ls, code);
    CodeIsKey(ls, code);
  }

  /** Deleting an existing code removes exactly one lesson; an unknown code
      removes none. */
  lemma DeleteRemovesOne(ls: seq<Lesson>, code: string)
    requires SortedBy(ls, LessonBefore)
    ensures |Filter(ls, LessonCodeIsNot(code))| ==
      |ls| - (if First(ls, LessonCoded(code)).Some? then 1 else 0)
  {
    FilterSplit(ls, LessonCodeIsNot(code), LessonCoded(code));
    CodeIsKey(ls, code);
  }

  /** A new lesson is found by its code with no downloads yet. */
  lemma AddedLessonFound(ls: seq<Lesson>, l: Lesson)
    requires SortedBy(ls, LessonBefore)
    requires First(ls, LessonCoded(l.code)).None?
    ensures First(ls + [l], LessonCoded(l.code)) == Some(l)
  {
    assert l in ls + [l];
    var f := First(ls + [l], LessonCoded(l.code));
    assert f.value in ls || f.value == l;
  }
}
