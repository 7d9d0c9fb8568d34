/** TeachersView.tsx: the faculty form. Its state (`isAdding`, `editingId`,
    `formData`) changes step by step as the user opens, fills, edits and
    submits it; submitting adds a teacher or merges the form onto the one
    being edited. The current year is an input. */
module TeachersView {
  import opened Wrappers
  import opened Lists
  import opened Types
  import Store
  import AppComponent

  /** The six fields of the form; email and specialization are plain strings,
      empty when not given. */
  datatype FormData = FormData(
    fullName: string,
    gender: Gender,
    phoneNumber: string,
    email: string,
    specialization: string,
    yearStarted: int)

  /** The form `resetForm` restores. */
  function BlankForm(year: int): (f: FormData)
    ensures f.fullName == "" && f.phoneNumber == "" && f.email == "" && f.specialization == ""
    ensures f.gender == Male && f.yearStarted == year
  {
    FormData("", Male, "", "", "", year)
  }

  /** `startEdit`'s form: the teacher's fields, an absent email or
      specialization shown as "". */
  function FormOf(t: Teacher): (f: FormData)
    ensures f.fullName == t.fullName && f.gender == t.gender && f.phoneNumber == t.phoneNumber
    ensures f.yearStarted == t.yearStarted
    ensures t.email.Some? ==> f.email == t.email.value
    ensures t.specialization.Some? ==> f.specialization == t.specialization.value
    ensures t.email.None? ==> f.email == ""
    ensures t.specialization.None? ==> f.specialization == ""
  {
    FormData(t.fullName, t.gender, t.phoneNumber, t.email.GetOr(""), t.specialization.GetOr(""), t.yearStarted)
  }

  /** `{ ...existing, ...formData }`: the form's six fields over the existing
      teacher, whose id, status and `yearEnded` stay. */
  function Merge(existing: Teacher, f: FormData): (r: Teacher)
    ensures r.id == existing.id && r.isActive == existing.isActive && r.yearEnded == existing.yearEnded
    ensures FormOf(r) == f
    ensures r.email.Some? && r.specialization.Some?
  {
    existing.(fullName := f.fullName, gender := f.gender, phoneNumber := f.phoneNumber,
              email := Some(f.email), specialization := Some(f.specialization),
              yearStarted := f.yearStarted)
  }

  /** Opening a teacher for editing and saving without changes gives the
      teacher back, except that an absent email or specialization is now
      stored as "". */
  lemma SaveUnchangedEdit(t: Teacher)
    ensures Merge(t, FormOf(t)) == t.(email := Some(t.email.GetOr("")), specialization := Some(t.specialization.GetOr("")))
    ensures Merge(t, FormOf(t)) == t <==> t.email.Some? && t.specialization.Some?
  {
  }

  /** What add mode hands to `addTeacher`: only the form's fields, so no
      `yearEnded`. */
  function DraftOf(f: FormData): (d: TeacherDraft)
    ensures d.yearEnded.None?
    ensures d.email == Some(f.email) && d.specialization == Some(f.specialization)
  {
    TeacherDraft(f.fullName, f.gender, f.phoneNumber, Some(f.email), Some(f.specialization), f.yearStarted, None)
  }

  function HasId(id: string): Teacher -> bool { (t: Teacher) => t.id == id }

  /** The store after `handleSubmit`. In edit mode it updates the edited
      teacher if it still exists and changes nothing otherwise; with no
      (or an empty) `editingId` it adds the form as a new teacher. */
  function SubmitEffect(s: AppState, editingId: Option<string>, f: FormData, freshId: string): (r: AppState)
    ensures r.(teachers := s.teachers) == s
    ensures IsSet(editingId) && (forall t :: t in s.teachers ==> t.id != editingId.value) ==> r == s
  {
    if IsSet(editingId) then
      match Find(s.teachers, HasId(editingId.value))
      case Some(existing) => Store.UpdateTeacher(s, Merge(existing, f))
      case None => s
    else Store.AddTeacher(s, DraftOf(f), freshId)
  }

  /** Edit mode: every teacher with the edited id now shows the submitted
      form and the status and `yearEnded` of the edited teacher, the first
      with that id (so, with unique ids, keeps its own); no other teacher
      changes. */
  lemma SubmitEditApplies(s: AppState, id: string, f: FormData, freshId: string)
    requires id != "" && exists t :: t in s.teachers && t.id == id
    ensures var r := SubmitEffect(s, Some(id), f, freshId);
      var edited := Find(s.teachers, HasId(id)).value;
      && |r.teachers| == |s.teachers|
      && forall i :: 0 <= i < |s.teachers| ==>
           if s.teachers[i].id == id then
             && FormOf(r.teachers[i]) == f && r.teachers[i].id == id
             && r.teachers[i].isActive == edited.isActive
             && r.teachers[i].yearEnded == edited.yearEnded
           else r.teachers[i] == s.teachers[i]
  {
    var edited := Find(s.teachers, HasId(id)).value;
    assert edited.id == id;
  }

  /** Add mode: one new active teacher whose form is the submitted one. The
      form has no `yearEnded`, so a well-formed store stays well-formed. */
  lemma SubmitAddApplies(s: AppState, f: FormData, freshId: string)
    requires Store.WellFormed(s)
    ensures var r := SubmitEffect(s, None, f, freshId);
      && |r.teachers| == |s.teachers| + 1
      && r.teachers[..|s.teachers|] == s.teachers
      && FormOf(r.teachers[|s.teachers|]) == f
      && r.teachers[|s.teachers|].isActive
      && Store.WellFormed(r)
  {
    Store.AddTeacherKeepsWellFormed(s, DraftOf(f), freshId);
  }

  /** Editing keeps the store well-formed: the merged teacher keeps its
      status and `yearEnded`. */
  lemma SubmitEditKeepsWellFormed(s: AppState, editingId: Option<string>, f: FormData, freshId: string)
    requires Store.WellFormed(s) && IsSet(editingId)
    ensures Store.WellFormed(SubmitEffect(s, editingId, f, freshId))
  {
    var found := Find(s.teachers, HasId(editingId.value));
    if found.Some? {
      assert StatusConsistent(found.value);
      Store.UpdateTeacherKeepsWellFormed(s, Merge(found.value, f));
    }
  }

  class TeacherForm {
    var isAdding: bool
    var editingId: Option<string>
    var formData: FormData

    constructor (year: int)
      ensures !isAdding && editingId == None && formData == BlankForm(year)
    {
      isAdding := false;
      editingId := None;
      formData := BlankForm(year);
    }

    /** `resetForm`: blank form, not editing. Whether the form is open is
        left as it is. */
    method ResetForm(year: int)
      modifies this
      ensures formData == BlankForm(year) && editingId == None
      ensures isAdding == old(isAdding)
    {
      formData := BlankForm(year);
      editingId := None;
    }

    /** The header button: "Cancel" closes and resets an open form,
        "Register New Faculty" opens it. */
    method ToggleOpen(year: int)
      modifies this
      ensures isAdding == !old(isAdding)
      ensures old(isAdding) ==> formData == BlankForm(year) && editingId == None
      ensures !old(isAdding) ==> formData == old(formData) && editingId == old(editingId)
    {
      if isAdding {
        isAdding := false;
        ResetForm(year);
      } else {
        isAdding := true;
      }
    }

    /** `startEdit`: open the form on the teacher's current values. */
    method StartEdit(t: Teacher)
      modifies this
      ensures editingId == Some(t.id) && formData == FormOf(t) && isAdding
    {
      editingId := Some(t.id);
      formData := FormOf(t);
      isAdding := true;
    }

    /** `handleSubmit`: send the update or the addition, then close and
        reset the form in every case, including when the edited teacher has
        disappeared meanwhile. */
    method Submit(app: AppComponent.App, year: int, freshId: string)
      modifies this, app
      ensures app.state == SubmitEffect(old(app.state), old(editingId), old(formData), freshId)
      ensures !isAdding && editingId == None && formData == BlankForm(year)
    {
      if IsSet(editingId) {
        var existing := Find(app.state.teachers, HasId(editingId.value));
        if existing.Some? {
          app.UpdateTeacher(Merge(existing.value, formData));
          editingId := None;
        }
      } else {
        app.AddTeacher(DraftOf(formData), freshId);
      }
      isAdding := false;
      ResetForm(year);
    }
  }
}
