/** The default-faculty pass of on_startup in app.py: every default name
    missing from the Fakultet table is added, and the additions are counted. */
module Seeding {
  import opened PyStr
  import opened Ordering
  import opened Relations
  import opened CourseStore

  /** The faculties every deployment starts with, in the order they are added. */
  const DefaultFakultetlar: seq<string> := [
    "Dasturiy injiniring",
    "Kompyuter injiniring",
    "Iqtisodiyot",
    "Menejment (talim)",
    "Menejment",
    "Tarix",
    "Psixologiya",
    "Moliyaviy nazorat",
    "Raqamli iqtisodiyot",
    "Lingvistika (Ingliz)",
    "Lingvistika (Arab)",
    "Sport faoliyati",
    "Talim nazariyasi",
    "Pedagogika"
  ]

  /** No default is listed twice. */
  lemma DefaultsDistinct()
    ensures |DefaultFakultetlar| == 14
    ensures Distinct(DefaultFakultetlar)
  {
  }

  function FakultetNames(fs: seq<Fakultet>): set<string>
  {
    set f | f in fs :: f.name
  }

  /** A name with no Fakultet row in `fs`. */
  function Missing(fs: seq<Fakultet>): string -> bool
  {
    (name: string) => name !in FakultetNames(fs)
  }

  /** Rows appended after `initial` carry names from `done`; a name outside
      `done` is therefore present now exactly when it was present at first. */
  lemma PresentAsBefore(cur: seq<Fakultet>, initial: seq<Fakultet>, done: seq<string>, name: string)
    requires |initial| <= |cur| && cur[..|initial|] == initial
    requires forall k :: |initial| <= k < |cur| ==> cur[k].name in done
    requires name !in done
    ensures name in FakultetNames(cur) <==> name in FakultetNames(initial)
  {
    forall f | f in initial ensures f in cur {
      var k :| 0 <= k < |initial| && initial[k] == f;
      assert cur[k] == f;
    }
    if name in FakultetNames(cur) {
      var f :| f in cur && f.name == name;
      var k :| 0 <= k < |cur| && cur[k] == f;
      assert cur[..|initial|][k] == f;
    }
  }

  /** One iteration of the loop: look the name up and add it when absent. */
  method SeedOne(db: CourseDatabase, name: string) returns (addedOne: bool)
    requires db.Valid()
    modifies db
    ensures db.Valid()
    ensures addedOne <==> name !in FakultetNames(old(db.fakultets))
    ensures addedOne ==> db.fakultets == old(db.fakultets) + [Fakultet(old(db.nextFakultetId), name)]
    ensures !addedOne ==> db.fakultets == old(db.fakultets)
    ensures name in FakultetNames(db.fakultets)
    ensures db.mavzular == old(db.mavzular) && db.lessons == old(db.lessons)
  {
    var existing := db.GetFakultetByName(name);
    if existing.None? {
      var ok := db.AddFakultet(name);
      assert db.fakultets[|db.fakultets| - 1].name == name;
      addedOne := true;
    } else {
      assert existing.value in db.fakultets;
      addedOne := false;
    }
  }

  /** What the loop has done after the first i names: `cur` is `initial`
      followed by the rows of the missing ones among them, and each of them
      now has a row. */
  ghost predicate SeededUpTo(cur: seq<Fakultet>, initial: seq<Fakultet>, names: seq<string>, i: nat, added: nat)
  {
    && i <= |names|
    && |cur| == |initial| + added
    && cur[..|initial|] == initial
    && added == |Filter(names[..i], Missing(initial))|
    && (forall k :: |initial| <= k < |cur| ==> cur[k].name in names[..i])
    && (forall name :: name in names[..i] ==> name in FakultetNames(cur))
  }

  /** One iteration keeps SeededUpTo. */
  lemma SeedStep(prev: seq<Fakultet>, cur: seq<Fakultet>, initial: seq<Fakultet>, names: seq<string>,
                 i: nat, added: nat, addedOne: bool, nextId: int)
    requires Distinct(names) && i < |names|
    requires SeededUpTo(prev, initial, names, i, added)
    requires addedOne <==> names[i] !in FakultetNames(prev)
    requires addedOne ==> cur == prev + [Fakultet(nextId, names[i])]
    requires !addedOne ==> cur == prev
    ensures SeededUpTo(cur, initial, names, i + 1, if addedOne then added + 1 else added)
  {
    var name := names[i];
    assert names[..i + 1] == names[..i] + [name];
    FilterSnoc(names[..i], name, Missing(initial));
    assert name !in names[..i];
    PresentAsBefore(prev, initial, names[..i], name);
    if addedOne {
      assert cur[..|initial|] == prev[..|initial|];
      assert FakultetNames(cur) == FakultetNames(prev) + {name};
    }
  }

  /** After the last name, SeededUpTo is the whole promise of the pass. */
  lemma SeededAll(cur: seq<Fakultet>, initial: seq<Fakultet>, names: seq<string>, added: nat)
    requires SeededUpTo(cur, initial, names, |names|, added)
    ensures forall name :: name in names ==> name in FakultetNames(cur)
    ensures |cur| == |initial| + added
    ensures cur[..|initial|] == initial
    ensures added == |Filter(names, Missing(initial))|
    ensures forall k :: |initial| <= k < |cur| ==> cur[k].name in names
  {
    assert names[..|names|] == names;
  }

  /** The loop of on_startup over a list of distinct names. Existing rows,
      default or not, are kept as they are; the missing names are appended
      in list order; `added` counts them. */
  method SeedNames(db: CourseDatabase, names: seq<string>) returns (added: nat)
    requires db.Valid() && Distinct(names)
    modifies db
    ensures db.Valid()
    ensures forall name :: name in names ==> name in FakultetNames(db.fakultets)
    ensures |db.fakultets| == |old(db.fakultets)| + added
    ensures db.fakultets[..|old(db.fakultets)|] == old(db.fakultets)
    ensures added == |Filter(names, Missing(old(db.fakultets)))|
    ensures forall k :: |old(db.fakultets)| <= k < |db.fakultets| ==> db.fakultets[k].name in names
    ensures db.mavzular == old(db.mavzular) && db.lessons == old(db.lessons)
  {
    added := 0;
    var i := 0;
    ghost var initial := db.fakultets;
    while i < |names|
      invariant 0 <= i <= |names|
      invariant db.Valid()
      invariant SeededUpTo(db.fakultets, initial, names, i, added)
      invariant db.mavzular == old(db.mavzular) && db.lessons == old(db.lessons)
    {
      ghost var prev := db.fakultets;
      ghost var nextId := db.nextFakultetId;
      var addedOne := SeedOne(db, names[i]);
      SeedStep(prev, db.fakultets, initial, names, i, added, addedOne, nextId);
      if addedOne {
        added := added + 1;
      }
      i := i + 1;
    }
    SeededAll(db.fakultets, initial, names, added);
  }

  /** on_startup's seeding pass over the default list. */
  method SeedDefaults(db: CourseDatabase) returns (added: nat)
    requires db.Valid()
    modifies db
    ensures db.Valid()
    ensures forall name :: name in DefaultFakultetlar ==> name in FakultetNames(db.fakultets)
    ensures |db.fakultets| == |old(db.fakultets)| + added
    ensures db.fakultets[..|old(db.fakultets)|] == old(db.fakultets)
    ensures added == |Filter(DefaultFakultetlar, Missing(old(db.fakultets)))|
    ensures db.mavzular == old(db.mavzular) && db.lessons == old(db.lessons)
  {
    DefaultsDistinct();
    added := SeedNames(db, DefaultFakultetlar);
  }

  /** Running the seeding pass again adds nothing: after one pass no default is missing. */
  lemma SeedingIdempotent(fs: seq<Fakultet>)
    requires forall name :: name in DefaultFakultetlar ==> name in FakultetNames(fs)
    ensures |Filter(DefaultFakultetlar, Missing(fs))| == 0
  {
    FilterAllOrNone(DefaultFakultetlar, Missing(fs));
  }
}
