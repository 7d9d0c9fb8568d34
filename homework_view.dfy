/** HomeworkView.tsx: homework for a chosen date and class. The form holds a
    subject, a description and an optional photo (its encoding is an input);
    submitting adds a record for the selected date and class and empties the
    form. */
module HomeworkView {
  import opened Wrappers
  import opened Lists
  import opened Types
  import Store

  /** The form; `image` is "" when nothing is attached. */
  datatype HomeworkForm = HomeworkForm(subject: string, description: string, image: string)

  function EmptyForm(): (f: HomeworkForm)
    ensures f.subject == "" && f.description == "" && f.image == ""
  {
    HomeworkForm("", "", "")
  }

  /** `handleImageUpload`: a chosen file replaces the attachment; no file
      leaves the form as it is. */
  function Attach(f: HomeworkForm, file: Option<string>): (r: HomeworkForm)
    ensures file.None? ==> r == f
    ensures file.Some? ==> r.image == file.value && r.(image := f.image) == f
  {
    if file.None? then f else f.(image := file.value)
  }

  /** The preview's remove button. */
  function Detach(f: HomeworkForm): (r: HomeworkForm)
    ensures r.image == "" && r.(image := f.image) == f
  {
    f.(image := "")
  }

  /** `{ ...formData, date, classId }`: the record handed to `addHomework`.
      The image is always present, "" when nothing was attached. */
  function DraftOf(f: HomeworkForm, date: string, classId: SchoolClass): (d: HomeworkDraft)
    ensures d.subject == f.subject && d.description == f.description && d.image == Some(f.image)
    ensures d.date == date && d.classId == classId
  {
    HomeworkDraft(classId, f.subject, date, f.description, Some(f.image))
  }

  /** A homework card shows a photo exactly when its image is a non-empty string. */
  predicate ShowsImage(h: Homework)
    ensures ShowsImage(h) <==> h.image.Some? && |h.image.value| > 0
  {
    IsSet(h.image)
  }

  /** `handleSubmit`: the store with the new record, and the emptied form. */
  function Submit(s: AppState, f: HomeworkForm, date: string, classId: SchoolClass, freshId: string): (r: (AppState, HomeworkForm))
    ensures r.0.(homework := s.homework) == s
    ensures r.0.homework == s.homework + [Homework(freshId, classId, f.subject, date, f.description, Some(f.image))]
    ensures r.1 == EmptyForm()
  {
    var next := Store.AddHomework(s, DraftOf(f, date, classId), freshId);
    assert next.homework == next.homework[..|s.homework|] + [next.homework[|s.homework|]];
    (next, EmptyForm())
  }

  /** A submitted record shows a photo exactly when one was attached; one
      attached and then removed leaves none. */
  lemma PhotoShownIffAttached(s: AppState, f: HomeworkForm, date: string, classId: SchoolClass, freshId: string, file: Option<string>)
    ensures var r := Submit(s, f, date, classId, freshId).0;
      ShowsImage(r.homework[|s.homework|]) <==> f.image != ""
    ensures var r := Submit(s, Detach(Attach(f, file)), date, classId, freshId).0;
      !ShowsImage(r.homework[|s.homework|])
  {
  }

  function OnDateInClass(date: string, classId: SchoolClass): Homework -> bool {
    (h: Homework) => h.date == date && h.classId == classId
  }

  /** `homeworkToday`: the records of the selected date and class, in store order. */
  function HomeworkToday(homework: seq<Homework>, date: string, classId: SchoolClass): (r: seq<Homework>)
    ensures forall h :: h in r <==> h in homework && h.date == date && h.classId == classId
    ensures Subsequence(r, homework)
    ensures forall h {:trigger multiset(r)[h]} ::
      multiset(r)[h] == if h.date == date && h.classId == classId then multiset(homework)[h] else 0
  {
    Filter(homework, OnDateInClass(date, classId))
  }

  /** A submitted record appears at the end of the list for its date and
      class, and the lists of every other date or class stay as they were. */
  lemma SubmittedIsListed(s: AppState, f: HomeworkForm, date: string, classId: SchoolClass, freshId: string,
                          date': string, classId': SchoolClass)
    ensures var r := Submit(s, f, date, classId, freshId).0;
      var added := Homework(freshId, classId, f.subject, date, f.description, Some(f.image));
      HomeworkToday(r.homework, date', classId') ==
        HomeworkToday(s.homework, date', classId') + (if date' == date && classId' == classId then [added] else [])
  {
    var added := Homework(freshId, classId, f.subject, date, f.description, Some(f.image));
    assert Submit(s, f, date, classId, freshId).0.homework == s.homework + [added];
    FilterAppend(s.homework, [added], OnDateInClass(date', classId'));
    FilterSingleton(added, OnDateInClass(date', classId'));
  }

  /** Deleting a listed record (with confirmation) takes it off the list. */
  lemma DeletedIsUnlisted(s: AppState, h: Homework, date: string, classId: SchoolClass)
    requires h in HomeworkToday(s.homework, date, classId)
    ensures h !in HomeworkToday(Store.DeleteHomework(s, h.id, true).homework, date, classId)
    ensures |HomeworkToday(Store.DeleteHomework(s, h.id, true).homework, date, classId)| < |HomeworkToday(s.homework, date, classId)|
  {
    var after := Store.DeleteHomework(s, h.id, true).homework;
    assert after == Filter(s.homework, Store.OtherHomework(h.id));
    HomeworkTodayShrinks(s.homework, h, date, classId);
  }

  lemma {:induction false} HomeworkTodayShrinks(hw: seq<Homework>, h: Homework, date: string, classId: SchoolClass)
    requires h in hw && h.date == date && h.classId == classId
    ensures |HomeworkToday(Filter(hw, Store.OtherHomework(h.id)), date, classId)| < |HomeworkToday(hw, date, classId)|
  {
    var keep := OnDateInClass(date, classId);
    var other := Store.OtherHomework(h.id);
    if hw[0] == h {
      assert Filter(hw, other) == Filter(hw[1..], other);
      assert Filter(hw, keep) == [h] + Filter(hw[1..], keep);
      FilterNeverGrows(hw[1..], other, keep);
    } else {
      HomeworkTodayShrinks(hw[1..], h, date, classId);
      assert Filter(hw, keep) == (if keep(hw[0]) then [hw[0]] else []) + Filter(hw[1..], keep);
      if other(hw[0]) {
        assert Filter(hw, other) == [hw[0]] + Filter(hw[1..], other);
        assert ([hw[0]] + Filter(hw[1..], other))[1..] == Filter(hw[1..], other);
      } else {
        assert Filter(hw, other) == Filter(hw[1..], other);
      }
    }
  }

  /** Filtering first by `drop` never lengthens a later filter. */
  lemma {:induction false} FilterNeverGrows(hw: seq<Homework>, drop: Homework -> bool, keep: Homework -> bool)
    ensures |Filter(Filter(hw, drop), keep)| <= |Filter(hw, keep)|
  {
    if hw != [] {
      FilterNeverGrows(hw[1..], drop, keep);
      var rest := Filter(hw[1..], drop);
      if drop(hw[0]) {
        assert Filter(hw, drop) == [hw[0]] + rest;
        assert ([hw[0]] + rest)[1..] == rest;
      } else {
        assert Filter(hw, drop) == rest;
      }
    }
  }
}
