/** handlers/users/main_handlers.py: choosing a faculty, the topic list of a
    faculty (its lessons grouped by topic), the lesson list of a topic, and
    the delivery of a lesson's file with its download counters. The buttons
    carry only their labels, so the handlers parse the topic name and the
    lesson title back out of the pressed label. */
module Catalog {
  import opened PyStr
  import opened Ordering
  import opened Relations
  import opened Keyboard
  import opened CourseStore
  import opened UserStore
  import FacultyMenu
  import UserMenu

  /** The group of the lessons without a topic. */
  const OtherTopic: string := "Boshqa"
  const FacultyBackCallback: string := "faculty_back"
  /** At most this many lessons are listed; a pressed title is matched on this many characters. */
  const MaxListed: nat := 20
  const MatchWidth: nat := 20

  datatype CatalogReply =
    | FacultyMenuShown
    | UnknownFaculty
    | FakultetMissing
    | NoLessons(faculty: string)
    | TopicsShown(faculty: string, keyboard: ReplyKeyboard, total: nat)
    | ChooseFacultyFirst
    | FacultyError
    | LessonsNotFound
    | LessonsShown(faculty: string, topic: string, keyboard: ReplyKeyboard, total: nat)
    | LessonNotFound
    | Delivered(fileId: string, title: string, code: string, downloads: nat)
    | SendFailed

  /** `not x` for an optional text: missing or empty. */
  predicate NoText(s: Option<string>) { s.None? || s.value == [] }

  /** `not fakultet_id`: missing or 0. */
  predicate NoId(id: Option<int>) { id.None? || id.value == 0 }

  // ==================== faculty lookup ====================

  /** The id of the first faculty, in listing order, with this name. */
  function FakultetIdByName(fs: seq<Fakultet>, name: string): (r: Option<int>)
    ensures r.Some? <==> exists f :: f in fs && f.name == name
    ensures r.Some? ==> exists f :: f in fs && f.name == name && f.id == r.value
  {
    match First(fs, FakultetNamed(name))
    case None => None
    case Some(f) => Some(f.id)
  }

  /** The loop the handlers use to find a faculty's id by its name. */
  method FindFakultetId(fakultetlar: seq<Fakultet>, name: string) returns (id: Option<int>)
    ensures id == FakultetIdByName(fakultetlar, name)
  {
    var i := 0;
    while i < |fakultetlar|
      invariant 0 <= i <= |fakultetlar|
      invariant forall k :: 0 <= k < i ==> !FakultetNamed(name)(fakultetlar[k])
    {
      if fakultetlar[i].name == name {
        FirstIsEarliest(fakultetlar, FakultetNamed(name), i);
        return Some(fakultetlar[i].id);
      }
      i := i + 1;
    }
    FirstIsEarliest(fakultetlar, FakultetNamed(name), i);
    id := None;
  }

  // ==================== grouping by topic ====================

  /** `dars['mavzu_name'] or "Boshqa"` */
  function GroupKey(row: DarsRow): string {
    if NoText(row.mavzuName) then OtherTopic else row.mavzuName.value
  }

  function KeyIs(k: string): DarsRow -> bool { (row: DarsRow) => GroupKey(row) == k }

  function GroupSize(rows: seq<DarsRow>, k: string): nat { |Filter(rows, KeyIs(k))| }

  /** The keys of the grouping dictionary in insertion order: each key where
      it first occurs. */
  function GroupKeys(rows: seq<DarsRow>): (ks: seq<string>)
    ensures |ks| <= |rows|
    decreases |rows|
  {
    if rows == [] then []
    else
      var ks := GroupKeys(rows[..|rows| - 1]);
      var k := GroupKey(rows[|rows| - 1]);
      if k in ks then ks else ks + [k]
  }

  /** The keys are distinct and are exactly the lessons' groups. */
  lemma {:induction false} GroupKeysSpec(rows: seq<DarsRow>)
    ensures Distinct(GroupKeys(rows))
    ensures forall k :: k in GroupKeys(rows) <==> exists i :: 0 <= i < |rows| && GroupKey(rows[i]) == k
  {
    if rows != [] {
      var pre := rows[..|rows| - 1];
      GroupKeysSpec(pre);
      assert forall i :: 0 <= i < |pre| ==> pre[i] == rows[i];
      var ks := GroupKeys(pre);
      var k := GroupKey(rows[|rows| - 1]);
      if k !in ks {
        assert forall i :: 0 <= i < |ks| ==> (ks + [k])[i] == ks[i];
      }
    }
  }

  /** The dictionary topic -> lessons of `rows`: its keys, in insertion
      order, and each group. */
  ghost predicate Grouped(rows: seq<DarsRow>, keys: seq<string>, groups: map<string, seq<DarsRow>>) {
    && keys == GroupKeys(rows)
    && (forall k :: k in groups <==> k in keys)
    && (forall k :: k in groups ==> groups[k] == Filter(rows, KeyIs(k)))
  }

  /** One more lesson: a new key is appended with an empty group, then the
      lesson is appended to its group. */
  lemma GroupStep(rows: seq<DarsRow>, i: nat, keys: seq<string>, groups: map<string, seq<DarsRow>>)
    requires i < |rows| && Grouped(rows[..i], keys, groups)
    ensures var k := GroupKey(rows[i]);
      Grouped(rows[..i + 1], if k in groups then keys else keys + [k],
              groups[k := (if k in groups then groups[k] else []) + [rows[i]]])
  {
    var pre, d := rows[..i], rows[i];
    assert rows[..i + 1] == pre + [d];
    var k := GroupKey(d);
    var keys' := if k in groups then keys else keys + [k];
    var groups' := groups[k := (if k in groups then groups[k] else []) + [d]];
    assert (pre + [d])[..|pre + [d]| - 1] == pre;
    if k !in groups {
      GroupKeysSpec(pre);
      forall x | x in pre ensures !KeyIs(k)(x) {
        var j :| 0 <= j < |pre| && pre[j] == x;
      }
      FilterAllOrNone(pre, KeyIs(k));
    }
    forall k' | k' in groups' ensures groups'[k'] == Filter(pre + [d], KeyIs(k')) {
      FilterSnoc(pre, d, KeyIs(k'));
    }
  }

  /** The loop of show_mavzular that fills the dictionary topic -> lessons. */
  method GroupByTopic(darslar: seq<DarsRow>) returns (keys: seq<string>, groups: map<string, seq<DarsRow>>)
    ensures Grouped(darslar, keys, groups)
  {
    keys, groups := [], map[];
    var i := 0;
    while i < |darslar|
      invariant 0 <= i <= |darslar|
      invariant Grouped(darslar[..i], keys, groups)
    {
      var dars := darslar[i];
      var mavzu := GroupKey(dars);
      GroupStep(darslar, i, keys, groups);
      var group := if mavzu in groups then groups[mavzu] else [];
      if mavzu !in groups {
        keys := keys + [mavzu];
      }
      groups := groups[mavzu := group + [dars]];
      i := i + 1;
    }
    assert darslar[..i] == darslar;
  }

  /** (topic, lesson count) for the given keys. */
  function Counted(rows: seq<DarsRow>, ks: seq<string>): (r: seq<(string, nat)>)
    ensures |r| == |ks|
    ensures forall i :: 0 <= i < |ks| ==> r[i] == (ks[i], GroupSize(rows, ks[i]))
  {
    seq(|ks|, i requires 0 <= i < |ks| => (ks[i], GroupSize(rows, ks[i])))
  }

  /** The group keys in sorted order: `sorted(mavzular.keys())`. */
  function SortedKeys(rows: seq<DarsRow>): seq<string>
  {
    SortBy(GroupKeys(rows), StrLeFn)
  }

  /** The topic buttons' contents: the sorted keys with their group sizes. */
  function TopicCounts(rows: seq<DarsRow>): seq<(string, nat)>
  {
    Counted(rows, SortedKeys(rows))
  }

  /** The sorted keys are ordered, distinct, and exactly the lessons' groups. */
  lemma SortedKeysSpec(rows: seq<DarsRow>)
    ensures SortedBy(SortedKeys(rows), StrLeFn) && Distinct(SortedKeys(rows))
    ensures forall k :: k in SortedKeys(rows) <==> exists j :: 0 <= j < |rows| && GroupKey(rows[j]) == k
  {
    GroupKeysSpec(rows);
    StrLeTotalPreorder();
    SortBySorted(GroupKeys(rows), StrLeFn);
    SortByDistinct(GroupKeys(rows), StrLeFn);
    SortByMembers(GroupKeys(rows), StrLeFn);
  }

  function CountSum(pairs: seq<(string, nat)>): nat
  {
    if pairs == [] then 0 else CountSum(pairs[..|pairs| - 1]) + pairs[|pairs| - 1].1
  }

  /** One more row adds one to the count of its key, when the key is listed. */
  lemma {:induction false} CountSnoc(pre: seq<DarsRow>, d: DarsRow, ks: seq<string>)
    requires Distinct(ks)
    ensures CountSum(Counted(pre + [d], ks)) == CountSum(Counted(pre, ks)) + (if GroupKey(d) in ks then 1 else 0)
  {
    if ks != [] {
      var init := ks[..|ks| - 1];
      var k := ks[|ks| - 1];
      assert ks == init + [k];
      assert Counted(pre + [d], ks)[..|ks| - 1] == Counted(pre + [d], init);
      assert Counted(pre, ks)[..|ks| - 1] == Counted(pre, init);
      CountSnoc(pre, d, init);
      FilterSnoc(pre, d, KeyIs(k));
      assert k !in init;
    }
  }

  /** When every row's key is listed once, the counts add up to the number of rows. */
  lemma {:induction false} SumOfCounts(rows: seq<DarsRow>, ks: seq<string>)
    requires Distinct(ks)
    requires forall i :: 0 <= i < |rows| ==> GroupKey(rows[i]) in ks
    ensures CountSum(Counted(rows, ks)) == |rows|
  {
    if rows == [] {
      if ks != [] {
        assert Counted(rows, ks)[..|ks| - 1] == Counted(rows, ks[..|ks| - 1]);
        SumOfCounts(rows, ks[..|ks| - 1]);
      }
    } else {
      var pre := rows[..|rows| - 1];
      var d := rows[|rows| - 1];
      assert rows == pre + [d];
      SumOfCounts(pre, ks);
      CountSnoc(pre, d, ks);
    }
  }

  /** The topic buttons of show_mavzular come in strictly increasing order of topic name. */
  lemma TopicCountsOrdered(rows: seq<DarsRow>)
    ensures var tc := TopicCounts(rows);
      forall i, j :: 0 <= i < j < |tc| ==> StrLe(tc[i].0, tc[j].0) && tc[i].0 != tc[j].0
  {
    SortedKeysSpec(rows);
    var ks := SortedKeys(rows);
    var tc := TopicCounts(rows);
    forall i, j | 0 <= i < j < |tc| ensures StrLe(tc[i].0, tc[j].0) && tc[i].0 != tc[j].0 {
      assert tc[i].0 == ks[i] && tc[j].0 == ks[j];
      assert StrLeFn(ks[i], ks[j]);
    }
  }

  /** Every lesson's group has a button, and each button's count is the size
      of its group and at least 1 (so no button names an empty group). */
  lemma TopicCountsCover(rows: seq<DarsRow>)
    ensures var tc := TopicCounts(rows);
      && (forall i :: 0 <= i < |tc| ==> tc[i].1 == GroupSize(rows, tc[i].0) && tc[i].1 >= 1)
      && (forall j :: 0 <= j < |rows| ==> exists i :: 0 <= i < |tc| && tc[i].0 == GroupKey(rows[j]))
  {
    SortedKeysSpec(rows);
    var ks := SortedKeys(rows);
    var tc := TopicCounts(rows);
    forall i | 0 <= i < |tc| ensures tc[i].1 >= 1 {
      assert ks[i] in ks;
      var j :| 0 <= j < |rows| && GroupKey(rows[j]) == ks[i];
      assert rows[j] in Filter(rows, KeyIs(ks[i]));
    }
    forall j | 0 <= j < |rows| ensures exists i :: 0 <= i < |tc| && tc[i].0 == GroupKey(rows[j]) {
      assert GroupKey(rows[j]) in ks;
      var i :| 0 <= i < |ks| && ks[i] == GroupKey(rows[j]);
      assert tc[i].0 == ks[i];
    }
  }

  /** The counts on the topic buttons add up to the number of lessons. */
  lemma TopicCountsSum(rows: seq<DarsRow>)
    ensures CountSum(TopicCounts(rows)) == |rows|
  {
    SortedKeysSpec(rows);
    forall j | 0 <= j < |rows| ensures GroupKey(rows[j]) in SortedKeys(rows) {
    }
    SumOfCounts(rows, SortedKeys(rows));
  }

  /** A row per pair followed by the faculties and help row is the topic
      keyboard of a single page. */
  lemma SinglePageKeyboard(rows: ReplyKeyboard, pairs: seq<(string, nat)>)
    requires |rows| == |pairs|
    requires forall t :: 0 <= t < |rows| ==> rows[t] == [UserMenu.TopicLabel(pairs[t].0, pairs[t].1)]
    ensures rows + [[UserMenu.FacultiesLabel, UserMenu.HelpLabel]] == UserMenu.MavzuKeyboard(pairs, 1, 1)
  {
    var kb := rows + [[UserMenu.FacultiesLabel, UserMenu.HelpLabel]];
    var expected := UserMenu.MavzuKeyboard(pairs, 1, 1);
    assert UserMenu.NavButtons(1, 1) == [];
    assert |kb| == |expected|;
    forall t | 0 <= t < |kb| ensures kb[t] == expected[t] {
      if t < |rows| {
        assert kb[t] == rows[t];
      }
    }
  }

  /** The reply of show_mavzular for a faculty's lessons: without lessons the
      "no lessons" message with only the faculties button; otherwise the
      topic keyboard (no navigation row) and the full lesson count. */
  function MavzularReply(darslar: seq<DarsRow>, facultyName: string): (r: CatalogReply)
    ensures darslar == [] <==> r == NoLessons(facultyName)
    ensures darslar != [] ==>
      && r.TopicsShown? && r.total == |darslar|
      && |r.keyboard| == |TopicCounts(darslar)| + 1
      && r.keyboard[|r.keyboard| - 1] == [UserMenu.FacultiesLabel, UserMenu.HelpLabel]
  {
    if darslar == [] then NoLessons(facultyName)
    else TopicsShown(facultyName, UserMenu.MavzuKeyboard(TopicCounts(darslar), 1, 1), |darslar|)
  }

  /** The grouping dictionary read in sorted key order gives TopicCounts. */
  lemma GroupedCounts(rows: seq<DarsRow>, keys: seq<string>, groups: map<string, seq<DarsRow>>)
    requires Grouped(rows, keys, groups)
    ensures var sorted := SortBy(keys, StrLeFn);
      && |TopicCounts(rows)| == |sorted|
      && forall j :: 0 <= j < |sorted| ==>
           sorted[j] in groups && TopicCounts(rows)[j] == (sorted[j], |groups[sorted[j]]|)
  {
    var sorted := SortBy(keys, StrLeFn);
    SortByMembers(keys, StrLeFn);
    forall j | 0 <= j < |sorted| ensures sorted[j] in groups {
      assert sorted[j] in sorted;
    }
  }

  /** The button loop of show_mavzular: one row per key, in the given order,
      labelled with the key and the size of its group. */
  method TopicButtons(sorted: seq<string>, groups: map<string, seq<DarsRow>>) returns (rows: ReplyKeyboard)
    requires forall k :: k in sorted ==> k in groups
    ensures |rows| == |sorted|
    ensures forall t :: 0 <= t < |sorted| ==> rows[t] == [UserMenu.TopicLabel(sorted[t], |groups[sorted[t]]|)]
  {
    rows := [];
    var j := 0;
    while j < |sorted|
      invariant 0 <= j <= |sorted| && |rows| == j
      invariant forall t :: 0 <= t < j ==> rows[t] == [UserMenu.TopicLabel(sorted[t], |groups[sorted[t]]|)]
    {
      var mavzu := sorted[j];
      assert mavzu in sorted;
      var count := |groups[mavzu]|;
      rows := rows + [[UserMenu.TopicLabel(mavzu, count)]];
      j := j + 1;
    }
  }

  /** The keyboard part of show_mavzular: groups the lessons in a loop, then
      adds a button per topic in sorted key order, then the faculties and
      help row. */
  method TopicKeyboard(darslar: seq<DarsRow>) returns (kb: ReplyKeyboard)
    ensures kb == UserMenu.MavzuKeyboard(TopicCounts(darslar), 1, 1)
  {
    var keys, groups := GroupByTopic(darslar);
    var sorted := SortBy(keys, StrLeFn);
    ghost var tc := TopicCounts(darslar);
    GroupedCounts(darslar, keys, groups);
    var rows := TopicButtons(sorted, groups);
    SinglePageKeyboard(rows, tc);
    kb := rows + [[UserMenu.FacultiesLabel, UserMenu.HelpLabel]];
  }

  /** show_mavzular: the faculty's lessons, then the topic keyboard. */
  method ShowMavzular(cdb: CourseDatabase, fakultetId: int, facultyName: string) returns (reply: CatalogReply)
    requires cdb.Valid()
    ensures reply == MavzularReply(cdb.GetDarsByFakultet(fakultetId), facultyName)
  {
    var darslar := cdb.GetDarsByFakultet(fakultetId);
    if darslar == [] {
      return NoLessons(facultyName);
    }
    var kb := TopicKeyboard(darslar);
    reply := TopicsShown(facultyName, kb, |darslar|);
  }

  // ==================== labels ====================

  /** text[2:].strip(), then the part before the first " (" (all of it when
      there is none). */
  function ParseLabel(text: string): (r: string)
    ensures StartsWith(Strip(Drop(text, 2)), r)
    ensures Contains(Strip(Drop(text, 2)), " (") ==> OccursAt(Strip(Drop(text, 2)), " (", |r|)
    ensures !Contains(r, " (")
  {
    FirstField(Strip(Drop(text, 2)), " (")
  }

  /** In a name without " (" followed by a text starting with " (", the
      first " (" is the one right after the name. */
  lemma {:induction false} IndexAfterName(name: string, tail: string)
    requires !Contains(name, " (") && |tail| >= 2 && tail[0] == ' ' && tail[1] == '('
    ensures IndexOf(name + tail, " (") == Some(|name|)
  {
    var body := name + tail;
    assert body[|name|] == ' ' && body[|name| + 1] == '(';
    assert OccursAt(body, " (", |name|) by {
      var w := body[|name|..|name| + 2];
      assert |w| == 2 && w[0] == ' ' && w[1] == '(';
      assert w == " (";
    }
    forall j | 0 <= j < |name| ensures !OccursAt(body, " (", j) {
      if j + 2 <= |name| {
        assert body[j..j + 2] == name[j..j + 2];
        assert !OccursAt(name, " (", j);
      } else {
        assert body[j..j + 2][1] == body[|name|] == ' ';
      }
    }
  }

  /** Parsing a "<emoji> <name> (<count>)" label gives the name back when the
      name is non-empty, starts with a non-space and has no " (" in it. */
  lemma LabelRoundTrip(c: char, name: string, count: nat)
    requires name != [] && !IsSpace(name[0]) && !Contains(name, " (")
    ensures ParseLabel([c, ' '] + name + " (" + NatToDecimal(count) + ")") == name
  {
    var lab := [c, ' '] + name + " (" + NatToDecimal(count) + ")";
    var tail := " (" + NatToDecimal(count) + ")";
    var body := name + tail;
    assert lab == [c, ' '] + body;
    assert Drop(lab, 2) == body;
    assert body[0] == name[0] && body[|body| - 1] == ')';
    StripKeeps(body);
    IndexAfterName(name, tail);
    assert body[..|name|] == name;
  }

  /** The topic label f"📖 {name} ({count})" parses back to the name. */
  lemma TopicLabelRoundTrip(name: string, count: nat)
    requires name != [] && !IsSpace(name[0]) && !Contains(name, " (")
    ensures ParseLabel(UserMenu.TopicLabel(name, count)) == name
  {
    assert UserMenu.TopicLabel(name, count) == ['📖', ' '] + name + " (" + NatToDecimal(count) + ")";
    LabelRoundTrip('📖', name, count);
  }

  // ==================== topic selection ====================

  function Untopicked(): DarsRow -> bool { (row: DarsRow) => NoText(row.mavzuName) }

  /** `[d for d in all_darslar if not d['mavzu_name']]` */
  function OtherRows(all: seq<DarsRow>): (r: seq<DarsRow>)
    ensures forall x :: x in r <==> x in all && NoText(x.mavzuName)
  {
    Filter(all, Untopicked())
  }

  /** (title, count_download) of each listed lesson, whichever query listed
      it: get_dars_by_fakultet's rows and get_dars_by_mavzu's rows both
      carry the two columns show_darslar reads. */
  function Listing<R>(rows: seq<R>, title: R -> string, downloads: R -> nat): (r: seq<(string, nat)>)
    ensures |r| == |rows| && forall i :: 0 <= i < |rows| ==> r[i] == (title(rows[i]), downloads(rows[i]))
  {
    seq(|rows|, i requires 0 <= i < |rows| => (title(rows[i]), downloads(rows[i])))
  }

  /** The lessons select_mavzu lists for a topic name: for "Boshqa" the
      faculty's lessons without a topic, otherwise the topic's lessons. */
  function TopicLessons(cdb: CourseDatabase, fakultetId: int, name: string): seq<(string, nat)>
    reads cdb
    requires cdb.Valid()
  {
    if name == OtherTopic then
      Listing(OtherRows(cdb.GetDarsByFakultet(fakultetId)), (d: DarsRow) => d.title, (d: DarsRow) => d.countDownload)
    else
      Listing(cdb.GetDarsByMavzu(fakultetId, name), (t: TopicRow) => t.title, (t: TopicRow) => t.countDownload)
  }

  /** Selecting "Boshqa" lists exactly the faculty's lessons whose topic is
      missing or empty. */
  lemma OtherSelection(cdb: CourseDatabase, fakultetId: int)
    requires cdb.Valid()
    ensures var all := JoinTopics(cdb.mavzular, Filter(cdb.lessons, LessonOf(fakultetId)));
      forall row :: row in OtherRows(cdb.GetDarsByFakultet(fakultetId)) <==> row in all && NoText(row.mavzuName)
  {
    var all := JoinTopics(cdb.mavzular, Filter(cdb.lessons, LessonOf(fakultetId)));
    var got := cdb.GetDarsByFakultet(fakultetId);
    assert forall row :: row in got <==> row in multiset(got);
    assert forall row :: row in all <==> row in multiset(all);
  }

  /** show_darslar's keyboard: the first 20 lessons with titles cut to 35
      characters, then the back-to-topics and main-menu rows. */
  function DarslarKeyboard(listing: seq<(string, nat)>): (kb: ReplyKeyboard)
    ensures var shown := if |listing| < MaxListed then |listing| else MaxListed;
      && |kb| == shown + 2
      && (forall i :: 0 <= i < shown ==>
            kb[i] == [UserMenu.LessonLabel(Take(listing[i].0, UserMenu.LessonTitleWidth), listing[i].1)])
    ensures kb[|kb| - 2] == [UserMenu.BackToTopicsLabel] && kb[|kb| - 1] == [UserMenu.MainMenuLabel]
  {
    UserMenu.LessonRows(Limit(listing, MaxListed)) + UserMenu.OnePerRow([UserMenu.BackToTopicsLabel, UserMenu.MainMenuLabel])
  }

  /** The reply of select_mavzu once the faculty is known: nothing found, or
      the lesson keyboard with the full number of lessons. */
  function LessonsReply(listing: seq<(string, nat)>, faculty: string, topic: string): (r: CatalogReply)
    ensures listing == [] <==> r == LessonsNotFound
    ensures listing != [] ==> r.LessonsShown? && r.total == |listing| && r.keyboard == DarslarKeyboard(listing)
  {
    if listing == [] then LessonsNotFound else LessonsShown(faculty, topic, DarslarKeyboard(listing), |listing|)
  }

  /** select_mavzu: the topic name is parsed from the pressed label; the
      user's faculty must be set and known by name. */
  method SelectMavzu(udb: UserDatabase, cdb: CourseDatabase, userId: int, text: string) returns (reply: CatalogReply)
    requires udb.Valid() && cdb.Valid()
    ensures var faculty := udb.GetUserFaculty(userId);
      && (NoText(faculty) ==> reply == ChooseFacultyFirst)
      && (!NoText(faculty) ==>
            var id := FakultetIdByName(cdb.GetAllFakultetlar(), faculty.value);
            && (NoId(id) ==> reply == FacultyError)
            && (!NoId(id) ==>
                  reply == LessonsReply(TopicLessons(cdb, id.value, ParseLabel(text)), faculty.value, ParseLabel(text))))
  {
    var name := ParseLabel(text);
    var faculty := udb.GetUserFaculty(userId);
    if NoText(faculty) {
      return ChooseFacultyFirst;
    }
    var id := FindFakultetId(cdb.GetAllFakultetlar(), faculty.value);
    if NoId(id) {
      return FacultyError;
    }
    var darslar := TopicLessons(cdb, id.value, name);
    reply := LessonsReply(darslar, faculty.value, name);
  }

  // ==================== lesson selection and delivery ====================

  function TitleStarts(prefix: string): DarsRow -> bool { (row: DarsRow) => StartsWith(row.title, prefix) }

  /** The loop of select_dars: the first listed lesson whose title starts with the prefix. */
  method FindByPrefix(rows: seq<DarsRow>, prefix: string) returns (found: Option<DarsRow>)
    ensures found == First(rows, TitleStarts(prefix))
  {
    var i := 0;
    while i < |rows|
      invariant 0 <= i <= |rows|
      invariant forall k :: 0 <= k < i ==> !TitleStarts(prefix)(rows[k])
    {
      if StartsWith(rows[i].title, prefix) {
        FirstIsEarliest(rows, TitleStarts(prefix), i);
        return Some(rows[i]);
      }
      i := i + 1;
    }
    FirstIsEarliest(rows, TitleStarts(prefix), i);
    found := None;
  }

  /** get_dars_by_fakultet(fakultet_id); with no id the query matches nothing. */
  function FacultyRows(cdb: CourseDatabase, id: Option<int>): seq<DarsRow>
    reads cdb
    requires cdb.Valid()
  {
    if id.None? then [] else cdb.GetDarsByFakultet(id.value)
  }

  /** The lesson row select_dars picks for a pressed label: the first of the
      faculty's lessons whose title starts with the first 20 characters of
      the parsed title. */
  function Pick(udb: UserDatabase, cdb: CourseDatabase, userId: int, text: string): Option<DarsRow>
    reads udb, cdb
    requires udb.Valid() && cdb.Valid()
  {
    var faculty := udb.GetUserFaculty(userId);
    if NoText(faculty) then None
    else First(FacultyRows(cdb, FakultetIdByName(cdb.GetAllFakultetlar(), faculty.value)),
               TitleStarts(Take(ParseLabel(text), MatchWidth)))
  }

  /** A listed row comes from a stored lesson with the same code. */
  lemma RowHasLesson(cdb: CourseDatabase, fakultetId: int, row: DarsRow)
    requires cdb.Valid() && row in cdb.GetDarsByFakultet(fakultetId)
    ensures cdb.SearchDarsByCode(row.code).Some?
  {
    var sel := Filter(cdb.lessons, LessonOf(fakultetId));
    var all := JoinTopics(cdb.mavzular, sel);
    assert row in multiset(cdb.GetDarsByFakultet(fakultetId));
    assert row in all;
    var i :| 0 <= i < |all| && all[i] == row;
    assert sel[i] in sel;
    assert sel[i] in cdb.lessons && sel[i].code == row.code;
  }

  /** Exactly one stored lesson has a given stored code, so bumping it adds one download in total. */
  lemma BumpOne(cdb: CourseDatabase, code: string)
    requires cdb.Valid() && cdb.SearchDarsByCode(code).Some?
    ensures TotalDownloads(Bump(cdb.lessons, code)) == TotalDownloads(cdb.lessons) + 1
  {
    BumpTotal(cdb.lessons, code);
    FilterAtMostOne(cdb.lessons, LessonCoded(code), LessonBefore);
    assert cdb.SearchDarsByCode(code).value in Filter(cdb.lessons, LessonCoded(code));
  }

  /** The stored lesson select_dars delivers: search_dars_by_code on the
      picked row's code. */
  function Picked(udb: UserDatabase, cdb: CourseDatabase, userId: int, text: string): Option<Lesson>
    reads udb, cdb
    requires udb.Valid() && cdb.Valid()
  {
    match Pick(udb, cdb, userId, text)
    case None => None
    case Some(row) => cdb.SearchDarsByCode(row.code)
  }

  /** A picked row always has its stored lesson, so the "not found" answer
      after the search cannot happen. */
  lemma PickedIsStored(udb: UserDatabase, cdb: CourseDatabase, userId: int, text: string)
    requires udb.Valid() && cdb.Valid()
    ensures Pick(udb, cdb, userId, text).Some? ==>
      && Picked(udb, cdb, userId, text).Some?
      && Picked(udb, cdb, userId, text).value.code == Pick(udb, cdb, userId, text).value.code
      && Picked(udb, cdb, userId, text).value in cdb.lessons
  {
    var faculty := udb.GetUserFaculty(userId);
    if Pick(udb, cdb, userId, text).Some? {
      var id := FakultetIdByName(cdb.GetAllFakultetlar(), faculty.value);
      var row := Pick(udb, cdb, userId, text).value;
      assert row in FacultyRows(cdb, id);
      RowHasLesson(cdb, id.value, row);
    }
  }

  /** The lookup half of select_dars: the faculty's lessons, the prefix
      loop, then the search by code. */
  method FindLesson(udb: UserDatabase, cdb: CourseDatabase, userId: int, text: string) returns (selected: Option<Lesson>)
    requires udb.Valid() && cdb.Valid()
    ensures selected == Picked(udb, cdb, userId, text)
  {
    var title := ParseLabel(text);
    var faculty := udb.GetUserFaculty(userId);
    if NoText(faculty) {
      return None;
    }
    var id := FindFakultetId(cdb.GetAllFakultetlar(), faculty.value);
    var allDarslar := FacultyRows(cdb, id);
    var found := FindByPrefix(allDarslar, Take(title, MatchWidth));
    if found.None? {
      return None;
    }
    selected := cdb.SearchDarsByCode(found.value.code);
  }

  /** The caption of a sent lesson shows its downloads including this one. */
  function DeliveredReply(l: Lesson): CatalogReply
  {
    Delivered(l.fileId, l.title, l.code, l.countDownload + 1)
  }

  /** update_download_count for a stored lesson: its count_download goes up
      by one, and so does the total over all lessons. */
  method CountLessonDownload(cdb: CourseDatabase, lesson: Lesson)
    requires cdb.Valid() && cdb.SearchDarsByCode(lesson.code) == Some(lesson)
    modifies cdb
    ensures cdb.Valid()
    ensures cdb.fakultets == old(cdb.fakultets) && cdb.mavzular == old(cdb.mavzular)
    ensures cdb.lessons == Bump(old(cdb.lessons), lesson.code)
    ensures TotalDownloads(cdb.lessons) == TotalDownloads(old(cdb.lessons)) + 1
  {
    BumpOne(cdb, lesson.code);
    cdb.UpdateDownloadCount(lesson.code);
  }

  /** The counters after a successful send: the lesson's count_download,
      the user's downloads and last_active. */
  method Deliver(udb: UserDatabase, cdb: CourseDatabase, userId: int, lesson: Lesson, now: int) returns (reply: CatalogReply)
    requires udb.Valid() && cdb.Valid() && cdb.SearchDarsByCode(lesson.code) == Some(lesson)
    modifies udb, cdb
    ensures udb.Valid() && cdb.Valid()
    ensures cdb.fakultets == old(cdb.fakultets) && cdb.mavzular == old(cdb.mavzular)
    ensures reply == DeliveredReply(lesson)
    ensures cdb.lessons == Bump(old(cdb.lessons), lesson.code)
    ensures TotalDownloads(cdb.lessons) == TotalDownloads(old(cdb.lessons)) + 1
    ensures udb.users == MapWhere(MapWhere(old(udb.users), TelegramIdIs(userId), AddDownload()),
                                  TelegramIdIs(userId), SetLastActive(now))
  {
    reply := DeliveredReply(lesson);
    CountLessonDownload(cdb, lesson);
    udb.IncrementDownloads(userId);
    udb.UpdateLastActive(userId, now);
  }

  /** select_dars: without a faculty the user is asked to choose one;
      without a stored lesson for the pressed label nothing is sent and
      nothing changes; the counters are updated only when the send
      succeeds (`sent`). */
  method SelectDars(udb: UserDatabase, cdb: CourseDatabase, userId: int, text: string, sent: bool, now: int)
    returns (reply: CatalogReply)
    requires udb.Valid() && cdb.Valid()
    modifies udb, cdb
    ensures udb.Valid() && cdb.Valid()
    ensures cdb.fakultets == old(cdb.fakultets) && cdb.mavzular == old(cdb.mavzular)
    ensures NoText(old(udb.GetUserFaculty(userId))) ==>
      reply == ChooseFacultyFirst && udb.users == old(udb.users) && cdb.lessons == old(cdb.lessons)
    ensures !NoText(old(udb.GetUserFaculty(userId))) && old(Picked(udb, cdb, userId, text)).None? ==>
      reply == LessonNotFound && udb.users == old(udb.users) && cdb.lessons == old(cdb.lessons)
    ensures old(Picked(udb, cdb, userId, text)).Some? && !sent ==>
      reply == SendFailed && udb.users == old(udb.users) && cdb.lessons == old(cdb.lessons)
    ensures old(Picked(udb, cdb, userId, text)).Some? && sent ==>
      var lesson := old(Picked(udb, cdb, userId, text)).value;
      && reply == DeliveredReply(lesson)
      && cdb.lessons == Bump(old(cdb.lessons), lesson.code)
      && TotalDownloads(cdb.lessons) == TotalDownloads(old(cdb.lessons)) + 1
      && udb.users == MapWhere(MapWhere(old(udb.users), TelegramIdIs(userId), AddDownload()),
                               TelegramIdIs(userId), SetLastActive(now))
  {
    var faculty := udb.GetUserFaculty(userId);
    if NoText(faculty) {
      assert Pick(udb, cdb, userId, text).None?;
      assert Picked(udb, cdb, userId, text).None?;
      return ChooseFacultyFirst;
    }
    var selected := FindLesson(udb, cdb, userId, text);
    if selected.None? {
      return LessonNotFound;
    }
    if !sent {
      return SendFailed;
    }
    reply := Deliver(udb, cdb, userId, selected.value, now);
  }

  /** The lesson label f"🎯 {title[:35]} ({downloads})" of show_darslar
      parses back to the cut title, and the lesson's own title starts with
      its first 20 characters: a pressed lesson is always among the
      candidates select_dars matches. */
  lemma PressedLessonMatches(title: string, downloads: nat)
    requires title != [] && !IsSpace(title[0])
    requires !Contains(Take(title, UserMenu.LessonTitleWidth), " (")
    ensures var shown := Take(title, UserMenu.LessonTitleWidth);
      && ParseLabel(UserMenu.LessonLabel(shown, downloads)) == shown
      && StartsWith(title, Take(ParseLabel(UserMenu.LessonLabel(shown, downloads)), MatchWidth))
  {
    var shown := Take(title, UserMenu.LessonTitleWidth);
    assert shown[0] == title[0];
    assert UserMenu.LessonLabel(shown, downloads) == ['🎯', ' '] + shown + " (" + NatToDecimal(downloads) + ")";
    LabelRoundTrip('🎯', shown, downloads);
    var prefix := Take(shown, MatchWidth);
    assert prefix == title[..|prefix|];
  }

  // ==================== faculty selection ====================

  /** select_faculty: "faculty_back" shows the faculty menu and an unknown
      callback an error, neither writing anything; a known faculty is saved
      to the user first, and then its topics are shown, or an error when no
      Fakultet row has that name. */
  method SelectFaculty(udb: UserDatabase, cdb: CourseDatabase, userId: int, data: string) returns (reply: CatalogReply)
    requires udb.Valid() && cdb.Valid()
    modifies udb
    ensures udb.Valid()
    ensures data == FacultyBackCallback ==> reply == FacultyMenuShown && udb.users == old(udb.users)
    ensures data != FacultyBackCallback && NoText(FacultyMenu.FacultyFor(data)) ==>
      reply == UnknownFaculty && udb.users == old(udb.users)
    ensures data != FacultyBackCallback && !NoText(FacultyMenu.FacultyFor(data)) ==>
      var name := FacultyMenu.FacultyFor(data).value;
      var id := FakultetIdByName(cdb.GetAllFakultetlar(), name);
      && udb.users == MapWhere(old(udb.users), TelegramIdIs(userId), SetFaculty(Some(name)))
      && (NoId(id) ==> reply == FakultetMissing)
      && (!NoId(id) ==> reply == MavzularReply(cdb.GetDarsByFakultet(id.value), name))
  {
    if data == FacultyBackCallback {
      return FacultyMenuShown;
    }
    var facultyName := FacultyMenu.FacultyFor(data);
    if NoText(facultyName) {
      return UnknownFaculty;
    }
    udb.UpdateFaculty(userId, facultyName);
    var id := FindFakultetId(cdb.GetAllFakultetlar(), facultyName.value);
    if NoId(id) {
      return FakultetMissing;
    }
    reply := ShowMavzular(cdb, id.value, facultyName.value);
  }

  /** back_to_mavzular: the topics of the user's saved faculty again. */
  method BackToMavzular(udb: UserDatabase, cdb: CourseDatabase, userId: int) returns (reply: CatalogReply)
    requires udb.Valid() && cdb.Valid()
    ensures var faculty := udb.GetUserFaculty(userId);
      && (NoText(faculty) ==> reply == FacultyError)
      && (!NoText(faculty) ==>
            var id := FakultetIdByName(cdb.GetAllFakultetlar(), faculty.value);
            && (NoId(id) ==> reply == FacultyError)
            && (!NoId(id) ==> reply == MavzularReply(cdb.GetDarsByFakultet(id.value), faculty.value)))
  {
    var faculty := udb.GetUserFaculty(userId);
    if NoText(faculty) {
      return FacultyError;
    }
    var id := FindFakultetId(cdb.GetAllFakultetlar(), faculty.value);
    if NoId(id) {
      return FacultyError;
    }
    reply := ShowMavzular(cdb, id.value, faculty.value);
  }
}
