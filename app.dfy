/** The `App` component's state cell (App.tsx): one `AppState` value that
    every action replaces as a whole. Each method performs one action through
    the corresponding function of `Store`. Persisting to local storage after
    each change is not modelled; loading is `Load`. */
module AppComponent {
  import opened Wrappers
  import opened Types
  import Store

  class App {
    var state: AppState

    /** First start: nothing persisted. */
    constructor ()
      ensures state == Store.Initial()
    {
      state := Store.Initial();
    }

    /** Start-up with a persisted document, which is taken as it is: its shape
        is not checked. */
    constructor Load(saved: Option<AppState>)
      ensures saved.Some? ==> state == saved.value
      ensures saved.None? ==> state == Store.Initial()
    {
      if saved.Some? {
        state := saved.value;
      } else {
        state := Store.Initial();
      }
    }

    method Login(username: string)
      modifies this
      ensures state == Store.Login(old(state), username)
    {
      state := Store.Login(state, username);
    }

    method Logout()
      modifies this
      ensures state == Store.Logout(old(state))
    {
      state := Store.Logout(state);
    }

    method UpdateState(updates: Store.Updates)
      modifies this
      ensures state == Store.UpdateState(old(state), updates)
    {
      state := Store.UpdateState(state, updates);
    }

    method AddTeacher(draft: TeacherDraft, freshId: string)
      modifies this
      ensures state == Store.AddTeacher(old(state), draft, freshId)
    {
      state := Store.AddTeacher(state, draft, freshId);
    }

    method UpdateTeacher(updated: Teacher)
      modifies this
      ensures state == Store.UpdateTeacher(old(state), updated)
    {
      state := Store.UpdateTeacher(state, updated);
    }

    /** `confirmed` is the user's answer to the confirmation dialog. */
    method DeleteTeacher(id: string, confirmed: bool)
      modifies this
      ensures state == Store.DeleteTeacher(old(state), id, confirmed)
      ensures !confirmed ==> state == old(state)
    {
      if !confirmed {
        return;
      }
      state := Store.DeleteTeacher(state, id, true);
    }

    /** `year` is the current calendar year. */
    method ToggleTeacherStatus(id: string, year: int)
      modifies this
      ensures state == Store.ToggleTeacherStatus(old(state), id, year)
    {
      state := Store.ToggleTeacherStatus(state, id, year);
    }

    /** Copies the timetable and writes the slot of the first entry with the
        same key, or appends. */
    method UpdateTimetable(entry: TimetableEntry)
      modifies this
      ensures state == Store.UpdateTimetable(old(state), entry)
    {
      var existing := Store.SlotIndex(state.timetable, KeyOf(entry));
      var newTimetable := state.timetable;
      if existing != -1 {
        newTimetable := newTimetable[existing := entry];
      } else {
        newTimetable := newTimetable + [entry];
      }
      state := state.(timetable := newTimetable);
    }

    method ClearTimetableEntry(id: string)
      modifies this
      ensures state == Store.ClearTimetableEntry(old(state), id)
    {
      state := Store.ClearTimetableEntry(state, id);
    }

    method AddLesson(draft: LessonDraft, freshId: string)
      modifies this
      ensures state == Store.AddLesson(old(state), draft, freshId)
    {
      state := Store.AddLesson(state, draft, freshId);
    }

    method DeleteLesson(id: string)
      modifies this
      ensures state == Store.DeleteLesson(old(state), id)
    {
      state := Store.DeleteLesson(state, id);
    }

    method AddHomework(draft: HomeworkDraft, freshId: string)
      modifies this
      ensures state == Store.AddHomework(old(state), draft, freshId)
    {
      state := Store.AddHomework(state, draft, freshId);
    }

    method DeleteHomework(id: string, confirmed: bool)
      modifies this
      ensures state == Store.DeleteHomework(old(state), id, confirmed)
      ensures !confirmed ==> state == old(state)
    {
      if !confirmed {
        return;
      }
      state := Store.DeleteHomework(state, id, true);
    }
  }
}
