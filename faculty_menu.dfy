/** keyboards/inline/fakultet.py: the callback-to-faculty mapping that
    select_faculty looks callbacks up in, and the faculty menu whose buttons
    produce those callbacks. The dictionary is kept as its list of entries in
    insertion order, which is the order Python's dict preserves. */
module FacultyMenu {
  import opened PyStr
  import opened Ordering
  import opened Keyboard
  import Seeding

  const FacultyMapping: seq<(string, string)> := [
    ("faculty_dasturiy", "Dasturiy injiniring"),
    ("faculty_kompyuter", "Kompyuter injiniring"),
    ("faculty_iqtisod", "Iqtisodiyot"),
    ("faculty_menejment1", "Menejment (talim)"),
    ("faculty_menejment2", "Menejment"),
    ("faculty_tarix", "Tarix"),
    ("faculty_psixologiya", "Psixologiya"),
    ("faculty_moliya", "Moliyaviy nazorat"),
    ("faculty_raqamli", "Raqamli iqtisodiyot"),
    ("faculty_ingliz", "Lingvistika (Ingliz)"),
    ("faculty_arab", "Lingvistika (Arab)"),
    ("faculty_sport", "Sport faoliyati"),
    ("faculty_talim", "Talim nazariyasi"),
    ("faculty_pedagogika", "Pedagogika")
  ]

  const FacultyMenuButtons: seq<InlineButton> := [
    InlineButton("💻 Dasturiy injiniring", Callback("faculty_dasturiy")),
    InlineButton("⚙️ Kompyuter injiniring", Callback("faculty_kompyuter")),
    InlineButton("📈 Iqtisodiyot", Callback("faculty_iqtisod")),
    InlineButton("📊 Menejment (talim)", Callback("faculty_menejment1")),
    InlineButton("🎯 Menejment", Callback("faculty_menejment2")),
    InlineButton("📜 Tarix", Callback("faculty_tarix")),
    InlineButton("🧠 Psixologiya", Callback("faculty_psixologiya")),
    InlineButton("💰 Moliyaviy nazorat", Callback("faculty_moliya")),
    InlineButton("📱 Raqamli iqtisodiyot", Callback("faculty_raqamli")),
    InlineButton("🇬🇧 Lingvistika (Ingliz)", Callback("faculty_ingliz")),
    InlineButton("🇸🇦 Lingvistika (Arab)", Callback("faculty_arab")),
    InlineButton("⚽ Sport faoliyati", Callback("faculty_sport")),
    InlineButton("📚 Talim nazariyasi", Callback("faculty_talim")),
    InlineButton("🎓 Pedagogika", Callback("faculty_pedagogika"))
  ]

  /** The callback prefix shared by every faculty button. */
  const FacultyPrefix: string := "faculty_"

  function Keys(entries: seq<(string, string)>): (r: seq<string>)
    ensures |r| == |entries| && forall i :: 0 <= i < |r| ==> r[i] == entries[i].0
  {
    seq(|entries|, i requires 0 <= i < |entries| => entries[i].0)
  }

  function Values(entries: seq<(string, string)>): (r: seq<string>)
    ensures |r| == |entries| && forall i :: 0 <= i < |r| ==> r[i] == entries[i].1
  {
    seq(|entries|, i requires 0 <= i < |entries| => entries[i].1)
  }

  /** FACULTY_MAPPING.get(key): the value of the first entry with that key. */
  function Lookup(entries: seq<(string, string)>, key: string): (r: Option<string>)
    ensures r.Some? <==> key in Keys(entries)
    ensures r.Some? ==> (key, r.value) in entries
  {
    if entries == [] then None
    else if entries[0].0 == key then Some(entries[0].1)
    else
      var r := Lookup(entries[1..], key);
      assert Keys(entries) == [entries[0].0] + Keys(entries[1..]);
      r
  }

  function FacultyFor(callback: string): Option<string>
  {
    Lookup(FacultyMapping, callback)
  }

  /** The mapping has 14 keys, all with the faculty_ prefix and all distinct,
      so it is a 14-entry dictionary. */
  lemma MappingKeys()
    ensures |Keys(FacultyMapping)| == 14
    ensures Distinct(Keys(FacultyMapping))
    ensures forall key :: key in Keys(FacultyMapping) ==> StartsWith(key, FacultyPrefix)
  {
  }

  /** No two callbacks select the same faculty. */
  lemma MappingInjective()
    ensures Distinct(Values(FacultyMapping))
  {
  }

  /** The menu's callbacks are exactly the mapping's keys, in the same order. */
  lemma MenuCallbacksInOrder()
    ensures |FacultyMenuButtons| == |FacultyMapping|
    ensures forall i :: 0 <= i < |FacultyMenuButtons| ==>
      FacultyMenuButtons[i].action == Callback(FacultyMapping[i].0)
  {
  }

  /** Every menu button's callback is a key of the mapping and selects the
      faculty listed at the same position. */
  lemma MenuCallbacksAreKeys()
    ensures forall i :: 0 <= i < |FacultyMenuButtons| ==>
      FacultyMenuButtons[i].action.Callback? &&
      FacultyFor(FacultyMenuButtons[i].action.data) == Some(FacultyMapping[i].1)
  {
    MappingKeys();
    MenuCallbacksInOrder();
    forall i | 0 <= i < |FacultyMenuButtons|
      ensures FacultyFor(FacultyMenuButtons[i].action.data) == Some(FacultyMapping[i].1)
    {
      LookupFindsDistinctKey(FacultyMapping, i);
    }
  }

  /** With distinct keys, looking up the i-th key finds the i-th value. */
  lemma {:induction false} LookupFindsDistinctKey(entries: seq<(string, string)>, i: nat)
    requires i < |entries| && Distinct(Keys(entries))
    ensures Lookup(entries, entries[i].0) == Some(entries[i].1)
  {
    if i > 0 {
      assert Keys(entries)[0] != Keys(entries)[i];
      assert Distinct(Keys(entries[1..])) by {
        forall a, b | 0 <= a < b < |entries| - 1 ensures Keys(entries[1..])[a] != Keys(entries[1..])[b] {
          assert Keys(entries)[a + 1] != Keys(entries)[b + 1];
        }
      }
      LookupFindsDistinctKey(entries[1..], i - 1);
    }
  }

  /** "faculty_back" is not a faculty, so select_faculty handles it before the lookup. */
  lemma BackIsNotAFaculty()
    ensures FacultyFor("faculty_back").None?
  {
    assert forall key :: key in Keys(FacultyMapping) ==> |key| > 8 && key[8] != 'b';
    assert "faculty_back"[8] == 'b';
  }

  /** The mapping selects exactly the faculties seeded at startup, in the same order. */
  lemma MappingMatchesDefaults()
    ensures Values(FacultyMapping) == Seeding.DefaultFakultetlar
  {
  }
}
