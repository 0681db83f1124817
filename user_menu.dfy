/** keyboards/default/user_menu.py: the topic and lesson reply keyboards.
    aiogram's markup.add(*buttons) splits its buttons into rows of
    row_width; the topic keyboard has row_width 2 and the lesson keyboard
    row_width 1, so there the navigation and bottom buttons get a row each. */
module UserMenu {
  import opened PyStr
  import opened Keyboard

  const PrevLabel: string := "⬅️ Oldingi"
  const NextLabel: string := "➡️ Keyingi"
  const FacultiesLabel: string := "🔙 Fakultetlar"
  const HelpLabel: string := "📞 Yordam"
  const BackToTopicsLabel: string := "🔙 Mavzularga qaytish"
  const MainMenuLabel: string := "🏠 Asosiy menyu"

  /** The most lessons the lesson keyboard shows, and the title width. */
  const MaxLessonButtons: nat := 15
  const LessonTitleWidth: nat := 35

  /** f"📖 {mavzu} ({count})" */
  function TopicLabel(name: string, count: nat): (r: string)
    ensures |r| > 2 && r[0] == '📖' && r[1] == ' '
  {
    "📖 " + name + " (" + NatToDecimal(count) + ")"
  }

  /** f"🎯 {title} ({downloads})" */
  function LessonLabel(title: string, downloads: nat): (r: string)
    ensures |r| > 2 && r[0] == '🎯'
  {
    "🎯 " + title + " (" + NatToDecimal(downloads) + ")"
  }

  /** The navigation buttons: "previous" when page > 1, "next" when page < total_pages. */
  function NavButtons(page: int, totalPages: int): (r: seq<string>)
    ensures PrevLabel in r <==> page > 1
    ensures NextLabel in r <==> page < totalPages
    ensures r == [] <==> page <= 1 && totalPages <= page
  {
    (if page > 1 then [PrevLabel] else []) + (if page < totalPages then [NextLabel] else [])
  }

  /** markup.add(*buttons) with row_width 1: one row per button. */
  function OnePerRow(labels: seq<string>): (rows: ReplyKeyboard)
    ensures |rows| == |labels|
    ensures forall i :: 0 <= i < |labels| ==> rows[i] == [labels[i]]
  {
    seq(|labels|, i requires 0 <= i < |labels| => [labels[i]])
  }

  predicate HasButton(kb: ReplyKeyboard, text: string) {
    exists i :: 0 <= i < |kb| && text in kb[i]
  }

  function TopicRows(mavzular: seq<(string, nat)>): (rows: ReplyKeyboard)
    ensures |rows| == |mavzular|
    ensures forall i :: 0 <= i < |mavzular| ==> rows[i] == [TopicLabel(mavzular[i].0, mavzular[i].1)]
  {
    seq(|mavzular|, i requires 0 <= i < |mavzular| => [TopicLabel(mavzular[i].0, mavzular[i].1)])
  }

  /** get_mavzu_keyboard: a row per (topic, count) pair in input order, the
      navigation row when it is non-empty, then the faculties and help row. */
  function MavzuKeyboard(mavzular: seq<(string, nat)>, page: int, totalPages: int): (kb: ReplyKeyboard)
    ensures |kb| == |mavzular| + (if NavButtons(page, totalPages) == [] then 0 else 1) + 1
    ensures forall i :: 0 <= i < |mavzular| ==> kb[i] == [TopicLabel(mavzular[i].0, mavzular[i].1)]
    ensures kb[|kb| - 1] == [FacultiesLabel, HelpLabel]
  {
    var nav := NavButtons(page, totalPages);
    TopicRows(mavzular) + (if nav == [] then [] else [nav]) + [[FacultiesLabel, HelpLabel]]
  }

  function LessonRows(darslar: seq<(string, nat)>): (rows: ReplyKeyboard)
    ensures |rows| == |darslar|
    ensures forall i :: 0 <= i < |darslar| ==>
      rows[i] == [LessonLabel(Take(darslar[i].0, LessonTitleWidth), darslar[i].1)]
  {
    seq(|darslar|, i requires 0 <= i < |darslar| => [LessonLabel(Take(darslar[i].0, LessonTitleWidth), darslar[i].1)])
  }

  /** get_dars_keyboard over (title, count_download) pairs: at most the first
      15 lessons with titles cut to 35 characters, then one row per
      navigation button, then the back-to-topics and main-menu rows. */
  function DarsKeyboard(darslar: seq<(string, nat)>, page: int, totalPages: int): (kb: ReplyKeyboard)
    ensures var shown := if |darslar| < MaxLessonButtons then |darslar| else MaxLessonButtons;
      && |kb| == shown + |NavButtons(page, totalPages)| + 2
      && (forall i :: 0 <= i < shown ==> kb[i] == [LessonLabel(Take(darslar[i].0, LessonTitleWidth), darslar[i].1)])
    ensures kb[|kb| - 2] == [BackToTopicsLabel] && kb[|kb| - 1] == [MainMenuLabel]
  {
    var shown := if |darslar| <= MaxLessonButtons then darslar else darslar[..MaxLessonButtons];
    LessonRows(shown) + OnePerRow(NavButtons(page, totalPages)) + OnePerRow([BackToTopicsLabel, MainMenuLabel])
  }

  /** On the topic keyboard "previous" appears iff page > 1 and "next" iff
      page < total_pages; with one page of one there is no navigation row. */
  lemma MavzuNavigation(mavzular: seq<(string, nat)>, page: int, totalPages: int)
    ensures HasButton(MavzuKeyboard(mavzular, page, totalPages), PrevLabel) <==> page > 1
    ensures HasButton(MavzuKeyboard(mavzular, page, totalPages), NextLabel) <==> page < totalPages
    ensures page == totalPages == 1 ==> |MavzuKeyboard(mavzular, page, totalPages)| == |mavzular| + 1
  {
    var kb := MavzuKeyboard(mavzular, page, totalPages);
    var nav := NavButtons(page, totalPages);
    forall i | 0 <= i < |mavzular| ensures PrevLabel !in kb[i] && NextLabel !in kb[i] {
      assert kb[i][0][0] == '📖';
    }
    if nav != [] {
      assert kb[|mavzular|] == nav;
    }
  }

  lemma HasButtonConcat(a: ReplyKeyboard, b: ReplyKeyboard, text: string)
    ensures HasButton(a + b, text) <==> HasButton(a, text) || HasButton(b, text)
  {
    if HasButton(a + b, text) {
      var i :| 0 <= i < |a + b| && text in (a + b)[i];
      if i >= |a| {
        assert b[i - |a|] == (a + b)[i];
      }
    }
    if HasButton(a, text) {
      var i :| 0 <= i < |a| && text in a[i];
      assert (a + b)[i] == a[i];
    }
    if HasButton(b, text) {
      var i :| 0 <= i < |b| && text in b[i];
      assert (a + b)[|a| + i] == b[i];
    }
  }

  lemma OnePerRowButtons(labels: seq<string>, text: string)
    ensures HasButton(OnePerRow(labels), text) <==> text in labels
  {
    var rows := OnePerRow(labels);
    if text in labels {
      var k :| 0 <= k < |labels| && labels[k] == text;
      assert text in rows[k];
    }
  }

  /** On the lesson keyboard "previous" appears iff page > 1 and "next" iff page < total_pages. */
  lemma DarsNavigation(darslar: seq<(string, nat)>, page: int, totalPages: int)
    ensures HasButton(DarsKeyboard(darslar, page, totalPages), PrevLabel) <==> page > 1
    ensures HasButton(DarsKeyboard(darslar, page, totalPages), NextLabel) <==> page < totalPages
  {
    var shown := if |darslar| <= MaxLessonButtons then darslar else darslar[..MaxLessonButtons];
    var lessons := LessonRows(shown);
    var nav := NavButtons(page, totalPages);
    var bottom := [BackToTopicsLabel, MainMenuLabel];
    assert DarsKeyboard(darslar, page, totalPages) == lessons + OnePerRow(nav) + OnePerRow(bottom);
    forall text | text == PrevLabel || text == NextLabel
      ensures HasButton(DarsKeyboard(darslar, page, totalPages), text) <==> text in nav
    {
      forall i | 0 <= i < |lessons| ensures text !in lessons[i] {
        assert lessons[i][0][0] == '🎯';
      }
      HasButtonConcat(lessons + OnePerRow(nav), OnePerRow(bottom), text);
      HasButtonConcat(lessons, OnePerRow(nav), text);
      OnePerRowButtons(nav, text);
      OnePerRowButtons(bottom, text);
    }
  }
}
