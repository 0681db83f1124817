/** handlers/users/admin_handler.py: the admin conversations. Each admin
    chat has one finite-state-machine state and a data dictionary that the
    handlers fill in step by step; `state.finish()` returns to no state and
    empties the dictionary. Three flows are modelled: adding a lesson
    (faculty, topic, code, title, file), deleting a lesson (code, then
    confirmation) and adding a faculty (name). */
module AdminFlows {
  import opened PyStr
  import opened Ordering
  import opened Relations
  import opened Keyboard
  import opened CourseStore
  import opened UserStore

  datatype State =
    | NoState
    | AddCourseFakultet | AddCourseMavzu | AddCourseCode | AddCourseTitle | AddCourseFile
    | DeleteCourseCode | DeleteCourseConfirm
    | AddFakultetName

  /** The keys of the state's data dictionary; None where the key is not set. */
  datatype FlowData = FlowData(
    fakultetId: Option<int>, fakultetName: Option<string>, mavzu: Option<string>,
    code: Option<string>, title: Option<string>, downloads: Option<nat>)

  const EmptyData: FlowData := FlowData(None, None, None, None, None, None)

  /** The attachment of a message in the file step; Telegram leaves the file
      name, the audio title and the size optional. */
  datatype Media =
    | Document(fileId: string, fileName: Option<string>, fileSize: Option<int>)
    | Audio(fileId: string, audioTitle: Option<string>, fileSize: Option<int>)
    | Video(fileId: string, fileSize: Option<int>)
    | Voice(fileId: string, fileSize: Option<int>)
    | VideoNote(fileId: string, fileSize: Option<int>)

  /** What an admin sends: a text message, a press on an inline button, or a
      message with an attachment. */
  datatype Input = Text(text: string) | Press(data: string) | Upload(media: Media)

  datatype Reply =
    | NoReply
    | Cancelled(adminPanel: bool)
    | AddFakultetFirst
    | ChooseFakultet(buttons: seq<InlineButton>)
    | FakultetNotFound
    | AskMavzu(fakultetName: string)
    | MavzuTooShort
    | AskCode(mavzu: string)
    | CodeTooShort
    | CodeTaken(code: string)
    | AskTitle(code: string)
    | TitleTooShort
    | AskFile(mavzu: string, code: string, title: string)
    | LessonAdded(fakultetName: string, mavzu: string, title: string, code: string, fileName: Option<string>)
    | AddFailed
    | AskDeleteCode
    | LessonNotFound(code: string)
    | ConfirmDeletion(title: string, code: string, downloads: nat)
    | LessonDeleted(code: string)
    | AskFakultetName
    | FakultetAdded(name: string)
    | FakultetFailed

  /** is_admin: a configured admin, or a user whose row carries the admin flag. */
  predicate IsAdmin(admins: set<int>, udb: UserDatabase, userId: int)
    reads udb
    requires udb.Valid()
  {
    userId in admins || udb.CheckIfAdmin(userId)
  }

  // ==================== texts and buttons ====================

  const AddCourseText: string := "➕ Dars Qo'shish"
  const DeleteCourseText: string := "🗑 Dars O'chirish"
  const AddFakultetText: string := "➕ Fakultet Qo'shish"
  const ConfirmText: string := "✅Tasdiqlash"
  const FakultetCallbackPrefix: string := "addfak_"

  /** The texts that leave any state ("🏠 Asosiy menyu", "❌ Bekor qilish",
      "/cancel"), lower-cased, since the comparison ignores case. */
  const ExitTexts: seq<string> := ["🏠 asosiy menyu", "❌ bekor qilish", "/cancel"]

  predicate IsExitText(text: string) {
    Lower(text) in ExitTexts
  }

  /** f"addfak_{fak_id}" */
  function FakultetCallback(id: int): (r: string)
    ensures StartsWith(r, FakultetCallbackPrefix)
  {
    FakultetCallbackPrefix + IntToDecimal(id)
  }

  /** The button of a faculty in the add-lesson flow. */
  function FakultetButton(f: Fakultet): (b: InlineButton)
    ensures b.action == Callback(FakultetCallback(f.id))
  {
    InlineButton("📚 " + f.name, Callback(FakultetCallback(f.id)))
  }

  /** int(call.data.split("_")[1]); None where Python raises. */
  function ParseFakultetId(data: string): Option<int>
  {
    match SecondField(data, '_')
    case None => None
    case Some(field) => ParseInt(field)
  }

  /** The name of the first faculty in `fs` with this id. */
  function FakultetNameById(fs: seq<Fakultet>, id: int): (r: Option<string>)
    ensures r.Some? <==> exists f :: f in fs && f.id == id
    ensures r.Some? ==> exists f :: f in fs && f.id == id && f.name == r.value
  {
    match First(fs, HasId(id))
    case None => None
    case Some(f) => Some(f.name)
  }

  function HasId(id: int): Fakultet -> bool { (f: Fakultet) => f.id == id }

  /** `not fak_name`: no faculty has the id, or its name is empty. */
  predicate NameMissing(name: Option<string>) {
    name.None? || name.value == []
  }

  // ==================== validation ====================

  /** No whitespace at either end: what strip() leaves (see StripKeeps). */
  predicate Stripped(s: string) { s == [] || (!IsSpace(s[0]) && !IsSpace(s[|s| - 1])) }

  /** No lower-case ASCII letter: what upper() leaves. */
  predicate NoLowerAscii(s: string) { forall i :: 0 <= i < |s| ==> !('a' <= s[i] <= 'z') }

  /** A topic or a title as the flow stores it: stripped, at least 2 long. */
  predicate ValidName(s: string) { Stripped(s) && |s| >= 2 }

  /** A lesson code as the flows store it: stripped and upper-cased. */
  predicate NormalCode(s: string) { Stripped(s) && NoLowerAscii(s) }

  /** A code the add-lesson flow accepts: normal and at least 3 long. */
  predicate ValidCode(s: string) { NormalCode(s) && |s| >= 3 }

  /** The file id, file name and size add_file stores for each kind of media:
      a document keeps its own name, an audio its title (or "audio" when the
      title is missing or empty), the others a fixed name. */
  function StoredFileName(m: Media): (r: Option<string>)
    ensures !m.Document? ==> r.Some? && r.value != []
    ensures m.Audio? && m.audioTitle.Some? && m.audioTitle.value != [] ==> r == m.audioTitle
  {
    match m
    case Document(_, name, _) => name
    case Audio(_, title, _) => if title.Some? && title.value != [] then title else Some("audio")
    case Video(_, _) => Some("video")
    case Voice(_, _) => Some("voice")
    case VideoNote(_, _) => Some("video_note")
  }

  // ==================== the delete confirmation ====================

  /** A value of a `SELECT *` row. */
  datatype Cell = IntCell(i: int) | TextCell(s: string) | NullCell

  function IntOrNull(v: Option<int>): Cell { if v.Some? then IntCell(v.value) else NullCell }
  function TextOrNull(v: Option<string>): Cell { if v.Some? then TextCell(v.value) else NullCell }

  /** A Lesson row by column position, in the order of the CREATE TABLE. */
  function LessonCells(l: Lesson): (r: seq<Cell>)
    ensures |r| == 10
  {
    [IntCell(l.id), IntCell(l.fakultetId), IntOrNull(l.mavzuId), TextCell(l.code), TextCell(l.title),
     TextCell(l.fileId), TextOrNull(l.fileName), IntOrNull(l.fileSize), IntCell(l.createdAt),
     IntCell(l.countDownload)]
  }

  /** The title and download count confirm_delete shows, as written: the
      row's columns 3 and 6. */
  function ConfirmCellsAsWritten(l: Lesson): (Cell, Cell)
  {
    var row := LessonCells(l);
    (row[3], row[6])
  }

  /** As written, the confirmation shows the lesson's code where its title
      belongs and its file name where its download count belongs. */
  lemma ConfirmShowsCodeAndFileName(l: Lesson)
    ensures ConfirmCellsAsWritten(l) == (TextCell(l.code), TextOrNull(l.fileName))
    ensures l.code != l.title ==> ConfirmCellsAsWritten(l).0 != TextCell(l.title)
    ensures ConfirmCellsAsWritten(l).1 != IntCell(l.countDownload)
  {
  }

  /** The title and download count of the lesson, which the model's
      confirmation shows: the row's columns 4 and 9. */
  function ConfirmDetails(l: Lesson): (r: (string, nat))
    ensures LessonCells(l)[4] == TextCell(r.0) && LessonCells(l)[9] == IntCell(r.1)
  {
    (l.title, l.countDownload)
  }

  // ==================== the conversation ====================

  /** Which moves between states the handlers make: staying, finishing,
      entering a flow from no state, and one step forward within a flow. */
  predicate Step(s: State, t: State) {
    || t == s
    || t == NoState
    || (s == NoState && t in {AddCourseFakultet, DeleteCourseCode, AddFakultetName})
    || (s == AddCourseFakultet && t == AddCourseMavzu)
    || (s == AddCourseMavzu && t == AddCourseCode)
    || (s == AddCourseCode && t == AddCourseTitle)
    || (s == AddCourseTitle && t == AddCourseFile)
    || (s == DeleteCourseCode && t == DeleteCourseConfirm)
  }

  /** The position of a state in the add-lesson flow; 0 outside it. */
  function AddCourseRank(s: State): (r: nat)
    ensures r <= 5
    ensures r == 0 <==> !(s in {AddCourseFakultet, AddCourseMavzu, AddCourseCode, AddCourseTitle, AddCourseFile})
  {
    match s
    case AddCourseFakultet => 1
    case AddCourseMavzu => 2
    case AddCourseCode => 3
    case AddCourseTitle => 4
    case AddCourseFile => 5
    case _ => 0
  }

  /** A run of the conversation: the states after each update. */
  predicate IsRun(run: seq<State>) {
    |run| > 0 && run[0] == NoState && forall i :: 0 < i < |run| ==> Step(run[i - 1], run[i])
  }

  /** The add-lesson flow is passed through in order: a run in its k-th step
      has been in each earlier step before. */
  lemma {:induction false} AddCourseInOrder(run: seq<State>, j: nat, r: nat)
    requires IsRun(run) && j < |run|
    requires 1 <= r <= AddCourseRank(run[j])
    ensures exists i :: 0 < i <= j && AddCourseRank(run[i]) == r
  {
    assert j > 0;
    assert Step(run[j - 1], run[j]);
    if r == AddCourseRank(run[j]) {
      assert AddCourseRank(run[j]) == r;
    } else {
      assert AddCourseRank(run[j - 1]) == AddCourseRank(run[j]) || AddCourseRank(run[j - 1]) == AddCourseRank(run[j]) - 1;
      AddCourseInOrder(run, j - 1, r);
    }
  }

  /** The faculty chosen in the first step of the add-lesson flow. */
  predicate HasFakultet(d: FlowData) {
    d.fakultetId.Some? && d.fakultetName.Some? && d.fakultetName.value != []
  }

  predicate HasMavzu(d: FlowData) { d.mavzu.Some? && ValidName(d.mavzu.value) }
  predicate HasCode(d: FlowData) { d.code.Some? && ValidCode(d.code.value) }
  predicate HasTitle(d: FlowData) { d.title.Some? && ValidName(d.title.value) }

  /** The lesson chosen for deletion: its normalised code, title and downloads. */
  predicate HasDeletion(d: FlowData) {
    d.code.Some? && NormalCode(d.code.value) && d.title.Some? && d.downloads.Some?
  }

  /** The data the dictionary holds in each state. */
  ghost predicate DataFits(state: State, d: FlowData) {
    match state
    case AddCourseMavzu =>
      HasFakultet(d) && d == EmptyData.(fakultetId := d.fakultetId, fakultetName := d.fakultetName)
    case AddCourseCode =>
      HasFakultet(d) && HasMavzu(d) && d.code.None? && d.title.None? && d.downloads.None?
    case AddCourseTitle =>
      HasFakultet(d) && HasMavzu(d) && HasCode(d) && d.title.None? && d.downloads.None?
    case AddCourseFile =>
      HasFakultet(d) && HasMavzu(d) && HasCode(d) && HasTitle(d) && d.downloads.None?
    case DeleteCourseConfirm =>
      HasDeletion(d) && d == EmptyData.(code := d.code, title := d.title, downloads := d.downloads)
    case _ => d == EmptyData
  }

  /** upper() on one code point: the result is no lower-case ASCII letter,
      and it is whitespace exactly when the code point is. */
  lemma UpperCharSpec(c: char)
    ensures !('a' <= UpperChar(c) <= 'z')
    ensures IsSpace(UpperChar(c)) == IsSpace(c)
  {
    if 'a' <= c <= 'z' {
      assert 'A' <= UpperChar(c) <= 'Z';
    }
  }

  /** Stripping, then upper-casing, gives a normal code. */
  lemma UpperStripNormal(s: string)
    ensures NormalCode(Upper(Strip(s)))
  {
    var c := Strip(s);
    var u := Upper(c);
    forall i | 0 <= i < |u| ensures !('a' <= u[i] <= 'z') && (IsSpace(u[i]) == IsSpace(c[i])) {
      UpperCharSpec(c[i]);
    }
  }

  /** `text.strip().upper()`, as add_code and confirm_delete normalise a
      code: stripped, with no lower-case ASCII letter left. */
  function NormalizeCode(text: string): (r: string)
    ensures NormalCode(r)
  {
    UpperStripNormal(text);
    Upper(Strip(text))
  }

  /** The lesson row add_file writes: the flow's faculty, code and title,
      the attachment's file id, name and size, a topic, no downloads yet. */
  predicate StoresUpload(l: Lesson, d: FlowData, media: Media, now: int)
    requires HasFakultet(d) && HasCode(d) && HasTitle(d)
  {
    && l == Lesson(l.id, d.fakultetId.value, l.mavzuId, d.code.value, d.title.value, media.fileId,
                   StoredFileName(media), media.fileSize, now, 0)
    && l.mavzuId.Some?
  }

  /** The confirmation add_file sends after a successful write. */
  function AddedReply(d: FlowData, media: Media): Reply
    requires HasFakultet(d) && HasMavzu(d) && HasCode(d) && HasTitle(d)
  {
    LessonAdded(d.fakultetName.value, d.mavzu.value, d.title.value, d.code.value, StoredFileName(media))
  }

  /** An exit text, which every state's exit handler takes first. */
  predicate Exiting(input: Input) {
    input.Text? && IsExitText(input.text)
  }

  /** The admin menu texts that start a flow from no state. */
  const MenuTexts: seq<string> := [AddCourseText, DeleteCourseText, AddFakultetText]

  /** Whether the handler registered for state `s` takes the input: a faculty
      button in the first add-lesson step, an attachment in the file step,
      the exact confirmation text in the delete confirmation, and a text in
      every other step. */
  predicate Takes(s: State, input: Input) {
    match s
    case NoState => false
    case AddCourseFakultet => input.Press? && StartsWith(input.data, FakultetCallbackPrefix)
    case AddCourseFile => input.Upload?
    case DeleteCourseConfirm => input == Text(ConfirmText)
    case _ => input.Text?
  }

  /** The conversation of one admin chat. */
  class AdminConversation {
    var state: State
    var data: FlowData

    ghost predicate Valid()
      reads this
    {
      DataFits(state, data)
    }

    constructor ()
      ensures Valid() && state == NoState && data == EmptyData
    {
      state, data := NoState, EmptyData;
    }

    // The outcome each handler promises, between the state before and the
    // state after one update.

    /** select_fakultet: an id that does not parse changes nothing; a
        faculty not found (or with an empty name) finishes the flow;
        otherwise its id and name are stored and the topic step follows. */
    twostate predicate FakultetChosen(db: CourseDatabase, callbackData: string, reply: Reply)
      reads this, db
      requires db.Valid()
    {
      var parsed := ParseFakultetId(callbackData);
      && (parsed.None? ==> reply == NoReply && state == old(state) && data == old(data))
      && (parsed.Some? ==>
            var name := FakultetNameById(db.GetAllFakultetlar(), parsed.value);
            && (NameMissing(name) ==> reply == FakultetNotFound && state == NoState && data == EmptyData)
            && (!NameMissing(name) ==>
                  && reply == AskMavzu(name.value)
                  && state == AddCourseMavzu
                  && data == old(data).(fakultetId := Some(parsed.value), fakultetName := name)))
    }

    /** add_mavzu: a stripped topic shorter than 2 is refused and nothing
        changes; otherwise it is stored and the code step follows. */
    twostate predicate MavzuGiven(text: string, reply: Reply)
      reads this
    {
      var mavzu := Strip(text);
      && (|mavzu| < 2 ==> reply == MavzuTooShort && state == old(state) && data == old(data))
      && (|mavzu| >= 2 ==> reply == AskCode(mavzu) && state == AddCourseCode && data == old(data).(mavzu := Some(mavzu)))
    }

    /** add_code: the normalised code; shorter than 3, or used by a lesson,
        is refused and nothing changes; otherwise stored, then the title step. */
    twostate predicate CodeGiven(db: CourseDatabase, text: string, reply: Reply)
      reads this, db
    {
      var code := NormalizeCode(text);
      && (|code| < 3 ==> reply == CodeTooShort && state == old(state) && data == old(data))
      && (|code| >= 3 && db.SearchDarsByCode(code).Some? ==>
            reply == CodeTaken(code) && state == old(state) && data == old(data))
      && (|code| >= 3 && db.SearchDarsByCode(code).None? ==>
            reply == AskTitle(code) && state == AddCourseTitle && data == old(data).(code := Some(code)))
    }

    /** add_title: a stripped title shorter than 2 is refused and nothing
        changes; otherwise the collected data is echoed and the file step follows. */
    twostate predicate TitleGiven(text: string, reply: Reply)
      reads this
      requires old(Valid()) && old(state) == AddCourseTitle
    {
      var title := Strip(text);
      && (|title| < 2 ==> reply == TitleTooShort && state == old(state) && data == old(data))
      && (|title| >= 2 ==>
            && reply == AskFile(old(data).mavzu.value, old(data).code.value, title)
            && state == AddCourseFile
            && data == old(data).(title := Some(title)))
    }

    /** add_file: the flow finishes; the topic exists afterwards; the write
        fails exactly when the code is already used, and otherwise appends
        one lesson holding the flow's data and the attachment. */
    twostate predicate FileAdded(db: CourseDatabase, media: Media, now: int, reply: Reply)
      reads this, db
      requires old(Valid()) && old(state) == AddCourseFile && old(db.Valid())
    {
      var d := old(data);
      && state == NoState && data == EmptyData
      && db.fakultets == old(db.fakultets)
      && db.mavzular == WithMavzu(old(db.mavzular), old(db.nextMavzuId), d.fakultetId.value, d.mavzu.value)
      && (reply == AddFailed <==> old(db.SearchDarsByCode(d.code.value)).Some?)
      && (reply == AddFailed ==> db.lessons == old(db.lessons))
      && (reply != AddFailed ==>
            && |db.lessons| == |old(db.lessons)| + 1
            && db.lessons[..|old(db.lessons)|] == old(db.lessons)
            && StoresUpload(db.lessons[|db.lessons| - 1], d, media, now)
            && Mavzu(db.lessons[|db.lessons| - 1].mavzuId.value, d.fakultetId.value, d.mavzu.value) in db.mavzular
            && reply == AddedReply(d, media))
    }

    /** confirm_delete: the normalised code; an unknown one is refused and
        nothing changes; a known one is stored with the lesson's details and
        the confirmation step follows. */
    twostate predicate DeletionChosen(db: CourseDatabase, text: string, reply: Reply)
      reads this, db
    {
      var code := NormalizeCode(text);
      && (db.SearchDarsByCode(code).None? ==>
            reply == LessonNotFound(code) && state == old(state) && data == old(data))
      && (db.SearchDarsByCode(code).Some? ==>
            var details := ConfirmDetails(db.SearchDarsByCode(code).value);
            && reply == ConfirmDeletion(details.0, code, details.1)
            && state == DeleteCourseConfirm
            && data == EmptyData.(code := Some(code), title := Some(details.0), downloads := Some(details.1)))
    }

    /** delete_confirmed: the stored code's lessons are gone, the other
        tables are kept, and the flow finishes. */
    twostate predicate LessonRemoved(db: CourseDatabase, reply: Reply)
      reads this, db
      requires old(Valid()) && old(state) == DeleteCourseConfirm
    {
      && state == NoState && data == EmptyData
      && reply == LessonDeleted(old(data).code.value)
      && db.lessons == Filter(old(db.lessons), LessonCodeIsNot(old(data).code.value))
      && db.SearchDarsByCode(old(data).code.value).None?
      && db.fakultets == old(db.fakultets) && db.mavzular == old(db.mavzular)
    }

    /** add_fakultet: the stripped name is appended unless a faculty already
        has it; the flow finishes either way. */
    twostate predicate FakultetNamed(db: CourseDatabase, text: string, reply: Reply)
      reads this, db
    {
      var name := Strip(text);
      && state == NoState && data == EmptyData
      && (old(db.GetFakultetByName(name)).None? ==>
            db.fakultets == old(db.fakultets) + [Fakultet(old(db.nextFakultetId), name)] && reply == FakultetAdded(name))
      && (old(db.GetFakultetByName(name)).Some? ==> db.fakultets == old(db.fakultets) && reply == FakultetFailed)
      && db.mavzular == old(db.mavzular) && db.lessons == old(db.lessons)
    }

    /** exit_to_main_menu: from any state, back to no state with empty data. */
    method Exit(isAdmin: bool) returns (reply: Reply)
      modifies this
      ensures Valid() && state == NoState && data == EmptyData
      ensures reply == Cancelled(isAdmin)
    {
      state, data := NoState, EmptyData;
      reply := Cancelled(isAdmin);
    }

    /** start_add_course: with no faculty nothing starts; otherwise a button
        per faculty, in name order, and the faculty step. */
    method StartAddCourse(db: CourseDatabase) returns (reply: Reply)
      requires Valid() && db.Valid() && state == NoState
      modifies this
      ensures Valid() && data == old(data)
      ensures db.GetAllFakultetlar() == [] ==> reply == AddFakultetFirst && state == NoState
      ensures db.GetAllFakultetlar() != [] ==>
        && state == AddCourseFakultet
        && reply.ChooseFakultet?
        && |reply.buttons| == |db.GetAllFakultetlar()|
        && (forall i :: 0 <= i < |reply.buttons| ==> reply.buttons[i] == FakultetButton(db.GetAllFakultetlar()[i]))
    {
      var fakultetlar := db.GetAllFakultetlar();
      if fakultetlar == [] {
        return AddFakultetFirst;
      }
      var buttons: seq<InlineButton> := [];
      var i := 0;
      while i < |fakultetlar|
        invariant 0 <= i <= |fakultetlar| && |buttons| == i
        invariant forall k :: 0 <= k < i ==> buttons[k] == FakultetButton(fakultetlar[k])
      {
        buttons := buttons + [FakultetButton(fakultetlar[i])];
        i := i + 1;
      }
      assert fakultetlar == db.GetAllFakultetlar();
      reply := ChooseFakultet(buttons);
      state := AddCourseFakultet;
    }

    /** select_fakultet: the id is read back from the button; an id that does
        not parse raises and changes nothing; a faculty that is not found (or
        has an empty name) finishes the flow; otherwise its id and name are
        stored and the topic step follows. */
    method SelectFakultet(db: CourseDatabase, callbackData: string) returns (reply: Reply)
      requires Valid() && db.Valid() && state == AddCourseFakultet
      requires StartsWith(callbackData, FakultetCallbackPrefix)
      modifies this
      ensures Valid()
      ensures FakultetChosen(db, callbackData, reply)
    {
      var id := ParseFakultetId(callbackData);
      if id.None? {
        return NoReply;
      }
      var name := FindFakultetName(db.GetAllFakultetlar(), id.value);
      if NameMissing(name) {
        state, data := NoState, EmptyData;
        return FakultetNotFound;
      }
      data := data.(fakultetId := Some(id.value), fakultetName := name);
      state := AddCourseMavzu;
      reply := AskMavzu(name.value);
    }

    /** add_mavzu: the stripped text is the topic; shorter than 2 is refused
        and nothing changes. */
    method AddMavzu(text: string) returns (reply: Reply)
      requires Valid() && state == AddCourseMavzu
      modifies this
      ensures Valid()
      ensures MavzuGiven(text, reply)
    {
      var mavzu := Strip(text);
      if |mavzu| < 2 {
        return MavzuTooShort;
      }
      data := data.(mavzu := Some(mavzu));
      state := AddCourseCode;
      reply := AskCode(mavzu);
    }

    /** add_code: the text stripped and upper-cased; shorter than 3, or a
        code some lesson already has, is refused and nothing changes. */
    method AddCode(db: CourseDatabase, text: string) returns (reply: Reply)
      requires Valid() && state == AddCourseCode
      modifies this
      ensures Valid()
      ensures CodeGiven(db, text, reply)
    {
      var code := NormalizeCode(text);
      if |code| < 3 {
        return CodeTooShort;
      }
      if db.SearchDarsByCode(code).Some? {
        return CodeTaken(code);
      }
      data := data.(code := Some(code));
      state := AddCourseTitle;
      reply := AskTitle(code);
    }

    /** add_title: the stripped text is the title; shorter than 2 is refused
        and nothing changes; otherwise the collected data is echoed and the
        file is asked for. */
    method AddTitle(text: string) returns (reply: Reply)
      requires Valid() && state == AddCourseTitle
      modifies this
      ensures Valid()
      ensures TitleGiven(text, reply)
    {
      var title := Strip(text);
      if |title| < 2 {
        return TitleTooShort;
      }
      data := data.(title := Some(title));
      state := AddCourseFile;
      reply := AskFile(data.mavzu.value, data.code.value, title);
    }

    /** add_file: the lesson is written with exactly the stored faculty id,
        topic, code and title and the attachment's file id, name and size;
        the topic is created first when it is new. The flow is finished
        whether or not the write succeeds. */
    method AddFile(db: CourseDatabase, media: Media, now: int) returns (reply: Reply)
      requires Valid() && db.Valid() && state == AddCourseFile
      modifies this, db
      ensures Valid() && db.Valid()
      ensures FileAdded(db, media, now, reply)
    {
      var d := data;
      assert HasMavzu(d);
      var ok := db.AddDars(d.fakultetId.value, d.code.value, d.title.value, media.fileId, Some(d.mavzu.value),
                           StoredFileName(media), media.fileSize, now);
      if ok {
        reply := AddedReply(d, media);
      } else {
        reply := AddFailed;
      }
      state, data := NoState, EmptyData;
    }

    /** start_delete_course */
    method StartDeleteCourse() returns (reply: Reply)
      requires Valid() && state == NoState
      modifies this
      ensures Valid() && state == DeleteCourseCode && data == old(data) && reply == AskDeleteCode
    {
      state := DeleteCourseCode;
      reply := AskDeleteCode;
    }

    /** confirm_delete: the code is normalised as in add_code; an unknown
        code is refused and the state stays; a known one is stored with the
        lesson's title and downloads, and the confirmation follows. */
    method ConfirmDelete(db: CourseDatabase, text: string) returns (reply: Reply)
      requires Valid() && state == DeleteCourseCode
      modifies this
      ensures Valid()
      ensures DeletionChosen(db, text, reply)
    {
      var code := NormalizeCode(text);
      var dars := db.SearchDarsByCode(code);
      if dars.None? {
        return LessonNotFound(code);
      }
      var details := ConfirmDetails(dars.value);
      data := EmptyData.(code := Some(code), title := Some(details.0), downloads := Some(details.1));
      state := DeleteCourseConfirm;
      reply := ConfirmDeletion(details.0, code, details.1);
    }

    /** delete_confirmed: the stored code's lessons are deleted and the flow
        is finished. */
    method DeleteConfirmed(db: CourseDatabase) returns (reply: Reply)
      requires Valid() && db.Valid() && state == DeleteCourseConfirm
      modifies this, db
      ensures Valid() && db.Valid()
      ensures LessonRemoved(db, reply)
    {
      var code := data.code.value;
      db.DeleteDars(code);
      state, data := NoState, EmptyData;
      reply := LessonDeleted(code);
    }

    /** start_add_fakultet */
    method StartAddFakultet() returns (reply: Reply)
      requires Valid() && state == NoState
      modifies this
      ensures Valid() && state == AddFakultetName && data == old(data) && reply == AskFakultetName
    {
      state := AddFakultetName;
      reply := AskFakultetName;
    }

    /** add_fakultet: the stripped text is inserted (an empty name too); a
        duplicate name fails the UNIQUE constraint. The flow is finished
        either way. */
    method AddFakultet(db: CourseDatabase, text: string) returns (reply: Reply)
      requires Valid() && db.Valid() && state == AddFakultetName
      modifies this, db
      ensures Valid() && db.Valid()
      ensures FakultetNamed(db, text, reply)
    {
      var name := Strip(text);
      var ok := db.AddFakultet(name);
      reply := if ok then FakultetAdded(name) else FakultetFailed;
      state, data := NoState, EmptyData;
    }

    /** With no state: an admin's three menu texts start their flows;
        anything else is ignored. */
    method HandleMenu(db: CourseDatabase, isAdmin: bool, input: Input) returns (reply: Reply)
      requires Valid() && db.Valid() && state == NoState
      modifies this
      ensures Valid() && db.Valid()
      ensures Step(old(state), state)
      ensures !(isAdmin && input.Text? && input.text in MenuTexts) ==>
        reply == NoReply && state == NoState && data == old(data)
      ensures isAdmin && input == Text(AddCourseText) ==>
        && data == old(data)
        && (db.GetAllFakultetlar() == [] ==> reply == AddFakultetFirst && state == NoState)
        && (db.GetAllFakultetlar() != [] ==>
              && state == AddCourseFakultet && reply.ChooseFakultet?
              && |reply.buttons| == |db.GetAllFakultetlar()|
              && (forall i :: 0 <= i < |reply.buttons| ==> reply.buttons[i] == FakultetButton(db.GetAllFakultetlar()[i])))
      ensures isAdmin && input == Text(DeleteCourseText) ==>
        state == DeleteCourseCode && data == old(data) && reply == AskDeleteCode
      ensures isAdmin && input == Text(AddFakultetText) ==>
        state == AddFakultetName && data == old(data) && reply == AskFakultetName
    {
      reply := NoReply;
      if input.Text? && isAdmin {
        if input.text == AddCourseText {
          reply := StartAddCourse(db);
        } else if input.text == DeleteCourseText {
          reply := StartDeleteCourse();
        } else if input.text == AddFakultetText {
          reply := StartAddFakultet();
        }
      }
    }

    /** In a state: that state's handler, with the outcome it promises; an
        input the handler does not take is ignored. */
    method HandleInState(db: CourseDatabase, input: Input, now: int) returns (reply: Reply)
      requires Valid() && db.Valid() && state != NoState
      modifies this, db
      ensures Valid() && db.Valid()
      ensures Step(old(state), state)
      ensures old(state) !in {AddCourseFile, DeleteCourseConfirm} ==> db.lessons == old(db.lessons)
      ensures old(state) != AddCourseFile ==> db.mavzular == old(db.mavzular)
      ensures old(state) != AddFakultetName ==> db.fakultets == old(db.fakultets)
      ensures !Takes(old(state), input) ==>
        && reply == NoReply && state == old(state) && data == old(data)
        && db.fakultets == old(db.fakultets) && db.mavzular == old(db.mavzular) && db.lessons == old(db.lessons)
      ensures old(state) == AddCourseFakultet && Takes(old(state), input) ==> FakultetChosen(db, input.data, reply)
      ensures old(state) == AddCourseMavzu && input.Text? ==> MavzuGiven(input.text, reply)
      ensures old(state) == AddCourseCode && input.Text? ==> CodeGiven(db, input.text, reply)
      ensures old(state) == AddCourseTitle && input.Text? ==> TitleGiven(input.text, reply)
      ensures old(state) == AddCourseFile && input.Upload? ==> FileAdded(db, input.media, now, reply)
      ensures old(state) == DeleteCourseCode && input.Text? ==> DeletionChosen(db, input.text, reply)
      ensures old(state) == DeleteCourseConfirm && input == Text(ConfirmText) ==> LessonRemoved(db, reply)
      ensures old(state) == AddFakultetName && input.Text? ==> FakultetNamed(db, input.text, reply)
    {
      reply := NoReply;
      match state
      case AddCourseFakultet =>
        if input.Press? && StartsWith(input.data, FakultetCallbackPrefix) {
          reply := SelectFakultet(db, input.data);
        }
      case AddCourseMavzu =>
        if input.Text? {
          reply := AddMavzu(input.text);
        }
      case AddCourseCode =>
        if input.Text? {
          reply := AddCode(db, input.text);
        }
      case AddCourseTitle =>
        if input.Text? {
          reply := AddTitle(input.text);
        }
      case AddCourseFile =>
        if input.Upload? {
          reply := AddFile(db, input.media, now);
        }
      case DeleteCourseCode =>
        if input.Text? {
          reply := ConfirmDelete(db, input.text);
        }
      case DeleteCourseConfirm =>
        if input == Text(ConfirmText) {
          reply := DeleteConfirmed(db);
        }
      case AddFakultetName =>
        if input.Text? {
          reply := AddFakultet(db, input.text);
        }
    }

    /** One update through the handlers of this file, in the order the
        dispatcher tries them: an exit text in any state first; with no
        state, an admin's three menu texts; in a state, that state's handler,
        with the outcome that handler promises. An input no handler takes
        changes nothing. */
    method Handle(db: CourseDatabase, isAdmin: bool, input: Input, now: int) returns (reply: Reply)
      requires Valid() && db.Valid()
      modifies this, db
      ensures Valid() && db.Valid()
      ensures Step(old(state), state)
      ensures Exiting(input) ==>
        && state == NoState && data == EmptyData && reply == Cancelled(isAdmin)
        && db.fakultets == old(db.fakultets) && db.mavzular == old(db.mavzular) && db.lessons == old(db.lessons)
      ensures old(state) !in {AddCourseFile, DeleteCourseConfirm} ==> db.lessons == old(db.lessons)
      ensures old(state) != AddCourseFile ==> db.mavzular == old(db.mavzular)
      ensures old(state) != AddFakultetName ==> db.fakultets == old(db.fakultets)
      ensures old(state) == DeleteCourseConfirm && db.lessons != old(db.lessons) ==> input == Text(ConfirmText)
      // With no state: the admin menu texts start their flows; anything else is ignored.
      ensures !Exiting(input) && old(state) == NoState && !(isAdmin && input.Text? && input.text in MenuTexts) ==>
        reply == NoReply && state == NoState && data == old(data)
      ensures !Exiting(input) && old(state) == NoState && isAdmin && input == Text(AddCourseText) ==>
        && data == old(data)
        && (db.GetAllFakultetlar() == [] ==> reply == AddFakultetFirst && state == NoState)
        && (db.GetAllFakultetlar() != [] ==>
              && state == AddCourseFakultet && reply.ChooseFakultet?
              && |reply.buttons| == |db.GetAllFakultetlar()|
              && (forall i :: 0 <= i < |reply.buttons| ==> reply.buttons[i] == FakultetButton(db.GetAllFakultetlar()[i])))
      ensures !Exiting(input) && old(state) == NoState && isAdmin && input == Text(DeleteCourseText) ==>
        state == DeleteCourseCode && data == old(data) && reply == AskDeleteCode
      ensures !Exiting(input) && old(state) == NoState && isAdmin && input == Text(AddFakultetText) ==>
        state == AddFakultetName && data == old(data) && reply == AskFakultetName
      // In a state, an input its handler does not take is ignored.
      ensures !Exiting(input) && old(state) != NoState && !Takes(old(state), input) ==>
        && reply == NoReply && state == old(state) && data == old(data)
        && db.fakultets == old(db.fakultets) && db.mavzular == old(db.mavzular) && db.lessons == old(db.lessons)
      // In a state, its handler's outcome.
      ensures !Exiting(input) && old(state) == AddCourseFakultet && Takes(old(state), input) ==>
        FakultetChosen(db, input.data, reply)
      ensures !Exiting(input) && old(state) == AddCourseMavzu && input.Text? ==> MavzuGiven(input.text, reply)
      ensures !Exiting(input) && old(state) == AddCourseCode && input.Text? ==> CodeGiven(db, input.text, reply)
      ensures !Exiting(input) && old(state) == AddCourseTitle && input.Text? ==> TitleGiven(input.text, reply)
      ensures !Exiting(input) && old(state) == AddCourseFile && input.Upload? ==> FileAdded(db, input.media, now, reply)
      ensures !Exiting(input) && old(state) == DeleteCourseCode && input.Text? ==> DeletionChosen(db, input.text, reply)
      ensures !Exiting(input) && old(state) == DeleteCourseConfirm && input == Text(ConfirmText) ==> LessonRemoved(db, reply)
      ensures !Exiting(input) && old(state) == AddFakultetName && input.Text? ==> FakultetNamed(db, input.text, reply)
    {
      if Exiting(input) {
        reply := Exit(isAdmin);
      } else if state == NoState {
        reply := HandleMenu(db, isAdmin, input);
      } else {
        reply := HandleInState(db, input, now);
      }
    }
  }

  /** The loop of select_fakultet: the name of the first faculty with the id. */
  method FindFakultetName(fakultetlar: seq<Fakultet>, id: int) returns (name: Option<string>)
    ensures name == FakultetNameById(fakultetlar, id)
  {
    var i := 0;
    while i < |fakultetlar|
      invariant 0 <= i <= |fakultetlar|
      invariant forall k :: 0 <= k < i ==> !HasId(id)(fakultetlar[k])
    {
      if fakultetlar[i].id == id {
        FirstIsEarliest(fakultetlar, HasId(id), i);
        return Some(fakultetlar[i].name);
      }
      i := i + 1;
    }
    FirstIsEarliest(fakultetlar, HasId(id), i);
    name := None;
  }

  /** The callback of a faculty's button reads back as that faculty's id. */
  lemma FakultetCallbackRoundTrip(id: int)
    ensures ParseFakultetId(FakultetCallback(id)) == Some(id)
  {
    var digits := IntToDecimal(id);
    var s := FakultetCallback(id);
    assert OccursAt(s, "_", 6);
    forall j | 0 <= j < 6 ensures !OccursAt(s, "_", j) {
      assert s[j] == FakultetCallbackPrefix[j];
    }
    var at := IndexOf(s, "_");
    assert at == Some(6);
    assert s[7..] == digits;
    forall j | 0 <= j <= |digits| ensures !OccursAt(digits, "_", j) {
      if j < |digits| {
        assert IsDigit(digits[j]) || digits[j] == '-';
      }
    }
    assert IndexOf(digits, "_").None?;
    IntRoundTrip(id);
  }

  /** In a table kept in id order, two different rows have different ids. */
  lemma SortedIdsDiffer(rows: seq<Fakultet>)
    requires SortedBy(rows, FakultetBefore)
    ensures forall a, b :: a in rows && b in rows && a != b ==> a.id != b.id
    ensures Distinct(rows)
  {
    forall a, b | a in rows && b in rows && a != b ensures a.id != b.id {
      var p :| 0 <= p < |rows| && rows[p] == a;
      var q :| 0 <= q < |rows| && rows[q] == b;
      if p < q {
        assert FakultetBefore(rows[p], rows[q]);
      } else {
        assert FakultetBefore(rows[q], rows[p]);
      }
    }
    forall i, j | 0 <= i < j < |rows| ensures rows[i] != rows[j] {
      assert FakultetBefore(rows[i], rows[j]);
    }
  }

  /** Any reordering of such a table has no two rows with one id. */
  lemma ReorderedIdsDistinct(rows: seq<Fakultet>, fs: seq<Fakultet>)
    requires SortedBy(rows, FakultetBefore) && multiset(fs) == multiset(rows)
    ensures forall i, j :: 0 <= i < j < |fs| ==> fs[i].id != fs[j].id
  {
    SortedIdsDiffer(rows);
    DistinctIffMultiplicity(rows);
    DistinctIffMultiplicity(fs);
    forall i, j | 0 <= i < j < |fs| ensures fs[i].id != fs[j].id {
      assert fs[i] in multiset(rows) && fs[j] in multiset(rows);
    }
  }

  /** The faculty list start_add_course shows has no two rows with one id. */
  lemma ListedIdsDistinct(db: CourseDatabase)
    requires db.Valid()
    ensures var fs := db.GetAllFakultetlar();
      forall i, j :: 0 <= i < j < |fs| ==> fs[i].id != fs[j].id
  {
    ReorderedIdsDistinct(db.fakultets, db.GetAllFakultetlar());
  }

  /** Pressing the k-th button start_add_course shows reads back the k-th
      faculty's id, and select_fakultet then finds that faculty's name. */
  lemma ButtonFindsFakultet(db: CourseDatabase, k: int)
    requires db.Valid()
    requires 0 <= k < |db.GetAllFakultetlar()|
    ensures var f := db.GetAllFakultetlar()[k];
      && ParseFakultetId(FakultetButton(f).action.data) == Some(f.id)
      && FakultetNameById(db.GetAllFakultetlar(), f.id) == Some(f.name)
  {
    var fs := db.GetAllFakultetlar();
    ListedIdsDistinct(db);
    FakultetCallbackRoundTrip(fs[k].id);
    FirstIsEarliest(fs, HasId(fs[k].id), k);
  }

  /** The source's exit labels, in any case, are exit texts. */
  lemma ExitLabels()
    ensures IsExitText("🏠 Asosiy menyu") && IsExitText("❌ Bekor qilish")
    ensures IsExitText("/cancel") && IsExitText("/CANCEL")
  {
    assert Lower("🏠 Asosiy menyu") == ExitTexts[0];
    assert Lower("❌ Bekor qilish") == ExitTexts[1];
    assert Lower("/cancel") == ExitTexts[2];
    assert Lower("/CANCEL") == ExitTexts[2];
  }
}
