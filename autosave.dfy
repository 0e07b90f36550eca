/** The editor's debounced autosave (src/Pages/Editor/Editor.jsx).

    The component keeps a status shown in the toolbar (saved, unsaved, saving, error),
    a flag telling whether a save is in progress, the HTML it last saved, and at most
    one debounce timer. An edit with new HTML marks the note unsaved and (re)starts the
    timer; when the timer fires, or the user saves by hand, `handleSave` hands the
    current HTML to `onSave` unless nothing changed. The `await` splits `handleSave`
    in two: StartSave runs up to the call of `onSave`, Settle runs once `onSave` has
    resolved or rejected. Other events may arrive in between, which is what the
    in-progress flag guards against. */
module Autosave {

  datatype SaveStatus = Saved | Unsaved | Saving | Error

  /** Everything the save logic keeps between events. `inFlight` is the HTML handed to
      the `onSave` call still awaited (the local `htmlContent` of `handleSave`). */
  datatype SaveState = SaveState(
    status: SaveStatus,
    saving: bool,
    lastSaved: string,
    timerPending: bool,
    inFlight: string)

  /** The state right after the component is mounted, before the editor exists. */
  function Initial(initialContent: string): SaveState
  {
    SaveState(Saved, false, initialContent, false, "")
  }

  /** The invariant every reachable state keeps: the status reads "saving" exactly while
      a save is in progress, and no timer is pending while a save is in progress. */
  predicate Inv(s: SaveState)
  {
    (s.status == Saving <==> s.saving) && (s.saving ==> !s.timerPending)
  }

  /** `onCreate`: the editor's first HTML becomes the baseline and the status is saved. */
  function AfterCreate(s: SaveState, html: string): (r: SaveState)
    ensures r.lastSaved == html && r.status == Saved
    ensures r.saving == s.saving && r.timerPending == s.timerPending
  {
    s.(lastSaved := html, status := Saved)
  }

  /** `onUpdate`: ignored while saving or when the HTML equals the last-saved HTML;
      otherwise the note becomes unsaved and exactly one timer is pending. */
  function AfterUpdate(s: SaveState, html: string): (r: SaveState)
    ensures s.saving || html == s.lastSaved ==> r == s
    ensures !s.saving && html != s.lastSaved ==>
      r.status == Unsaved && r.timerPending && !r.saving && r.lastSaved == s.lastSaved
  {
    if s.saving || html == s.lastSaved then s
    else s.(status := Unsaved, timerPending := true)
  }

  /** Whether `handleSave` reaches the call of `onSave`. */
  predicate Issues(s: SaveState, hasOnSave: bool, html: string)
  {
    hasOnSave && !s.saving && (html != s.lastSaved || s.status == Error)
  }

  /** `handleSave` up to `await onSave(htmlContent)`. */
  function StartSave(s: SaveState, hasOnSave: bool, html: string): (r: SaveState)
    // no second save while one is in progress, and none without a save callback
    ensures s.saving || !hasOnSave ==> r == s
    // unchanged content outside the error state: no save; unsaved becomes saved
    ensures hasOnSave && !s.saving && html == s.lastSaved && s.status != Error ==>
      r == s.(status := if s.status == Unsaved then Saved else s.status)
    // from the error state a save is retried even when nothing changed
    ensures Issues(s, hasOnSave, html) ==>
      r.saving && r.status == Saving && r.inFlight == html && r.lastSaved == s.lastSaved
    ensures r.timerPending == s.timerPending
  {
    if !hasOnSave || s.saving then s
    else if html == s.lastSaved && s.status != Error then
      (if s.status == Unsaved then s.(status := Saved) else s)
    else s.(saving := true, status := Saving, inFlight := html)
  }

  /** The rest of `handleSave`, once `onSave` has resolved (`ok`) or rejected. A settle
      with no save in progress cannot happen and changes nothing. */
  function Settle(s: SaveState, ok: bool): (r: SaveState)
    ensures !s.saving ==> r == s
    ensures s.saving && ok ==> r.status == Saved && r.lastSaved == s.inFlight
    ensures s.saving && !ok ==> r.status == Error && r.lastSaved == s.lastSaved
    ensures s.saving ==> !r.saving && !r.timerPending
  {
    if !s.saving then s
    else if ok then s.(lastSaved := s.inFlight, status := Saved, saving := false, timerPending := false)
    else s.(status := Error, saving := false, timerPending := false)
  }

  /** The debounce timer fires and runs `handleSave`; without a pending timer nothing fires. */
  function TimerFires(s: SaveState, hasOnSave: bool, html: string): (r: SaveState)
    ensures !r.timerPending || r == s
  {
    if s.timerPending then StartSave(s.(timerPending := false), hasOnSave, html) else s
  }

  /** `handleManualSave`: cancel the pending timer, then run `handleSave`. */
  function ManualSave(s: SaveState, hasOnSave: bool, html: string): (r: SaveState)
    ensures !r.timerPending
    ensures Issues(s, hasOnSave, html) ==> r.saving && r.inFlight == html
    ensures !Issues(s, hasOnSave, html) ==> r.saving == s.saving && r.lastSaved == s.lastSaved
  {
    StartSave(s.(timerPending := false), hasOnSave, html)
  }

  /** The events that drive the state after the editor has been created; each carries
      the editor's HTML at that moment, or the outcome of the awaited `onSave`. */
  datatype Event = Edit(html: string) | TimerFire(html: string) | Manual(html: string) | SaveDone(ok: bool)

  function Step(s: SaveState, hasOnSave: bool, e: Event): SaveState
  {
    match e
    case Edit(html) => AfterUpdate(s, html)
    case TimerFire(html) => TimerFires(s, hasOnSave, html)
    case Manual(html) => ManualSave(s, hasOnSave, html)
    case SaveDone(ok) => Settle(s, ok)
  }

  function Run(s: SaveState, hasOnSave: bool, evs: seq<Event>): SaveState
    decreases |evs|
  {
    if evs == [] then s else Run(Step(s, hasOnSave, evs[0]), hasOnSave, evs[1..])
  }

  /** The step calls `onSave`. */
  predicate StepIssues(s: SaveState, hasOnSave: bool, e: Event)
  {
    match e
    case TimerFire(html) => s.timerPending && Issues(s.(timerPending := false), hasOnSave, html)
    case Manual(html) => Issues(s.(timerPending := false), hasOnSave, html)
    case _ => false
  }

  /** The step is the completion of an awaited `onSave`. */
  predicate StepCompletes(s: SaveState, e: Event)
  {
    e.SaveDone? && s.saving
  }

  function IssuedCount(s: SaveState, hasOnSave: bool, evs: seq<Event>): nat
    decreases |evs|
  {
    if evs == [] then 0
    else (if StepIssues(s, hasOnSave, evs[0]) then 1 else 0)
         + IssuedCount(Step(s, hasOnSave, evs[0]), hasOnSave, evs[1..])
  }

  function CompletedCount(s: SaveState, hasOnSave: bool, evs: seq<Event>): nat
    decreases |evs|
  {
    if evs == [] then 0
    else (if StepCompletes(s, evs[0]) then 1 else 0)
         + CompletedCount(Step(s, hasOnSave, evs[0]), hasOnSave, evs[1..])
  }

  function B(b: bool): int
  {
    if b then 1 else 0
  }

  /** Every event keeps the invariant. */
  lemma StepKeepsInv(s: SaveState, hasOnSave: bool, e: Event)
    requires Inv(s)
    ensures Inv(Step(s, hasOnSave, e))
  {
  }

  /** Creation establishes the invariant and every run of events keeps it. */
  lemma {:induction false} RunKeepsInv(initialContent: string, created: string, hasOnSave: bool, evs: seq<Event>)
    ensures Inv(Run(AfterCreate(Initial(initialContent), created), hasOnSave, evs))
  {
    RunFromInv(AfterCreate(Initial(initialContent), created), hasOnSave, evs);
  }

  lemma {:induction false} RunFromInv(s: SaveState, hasOnSave: bool, evs: seq<Event>)
    requires Inv(s)
    ensures Inv(Run(s, hasOnSave, evs))
    decreases |evs|
  {
    if evs != [] {
      StepKeepsInv(s, hasOnSave, evs[0]);
      RunFromInv(Step(s, hasOnSave, evs[0]), hasOnSave, evs[1..]);
    }
  }

  /** A step starts a save exactly when it turns the in-progress flag on, and completes
      one exactly when it turns the flag off. */
  lemma StepSavingFlag(s: SaveState, hasOnSave: bool, e: Event)
    ensures StepIssues(s, hasOnSave, e) ==> !s.saving && Step(s, hasOnSave, e).saving
    ensures StepCompletes(s, e) ==> s.saving && !Step(s, hasOnSave, e).saving
    ensures !StepIssues(s, hasOnSave, e) && !StepCompletes(s, e) ==>
      Step(s, hasOnSave, e).saving == s.saving
  {
  }

  /** Saves never overlap: along any run, the saves started exceed the saves completed
      by exactly the change in the in-progress flag. Starting from no save in progress,
      at most one save is ever awaiting its outcome. */
  lemma {:induction false} SavesNeverOverlap(s: SaveState, hasOnSave: bool, evs: seq<Event>)
    ensures IssuedCount(s, hasOnSave, evs)
            == CompletedCount(s, hasOnSave, evs) + B(Run(s, hasOnSave, evs).saving) - B(s.saving)
    decreases |evs|
  {
    if evs != [] {
      StepSavingFlag(s, hasOnSave, evs[0]);
      SavesNeverOverlap(Step(s, hasOnSave, evs[0]), hasOnSave, evs[1..]);
    }
  }

  /** An edit with new content, the timer firing and a successful save leave the note
      saved with that content and no timer pending. */
  lemma EditIsSavedByTimer(s: SaveState, html: string)
    requires Inv(s) && !s.saving && html != s.lastSaved
    ensures var r := Run(s, true, [Edit(html), TimerFire(html), SaveDone(true)]);
            r.status == Saved && r.lastSaved == html && !r.timerPending && !r.saving
  {
    var s1 := Step(s, true, Edit(html));
    var s2 := Step(s1, true, TimerFire(html));
    assert Run(s, true, [Edit(html), TimerFire(html), SaveDone(true)])
        == Run(s2, true, [SaveDone(true)]);
  }

  /** After a failed save the same, unchanged content is sent again by a manual save. */
  lemma FailedSaveIsRetried(s: SaveState, html: string, ok: bool)
    requires Inv(s) && s.saving && s.inFlight == html && s.lastSaved != html
    ensures var failed := Settle(s, false);
            failed.status == Error && Issues(failed, true, html)
            && Settle(ManualSave(failed, true, html), ok).status == (if ok then Saved else Error)
  {
  }

  /** The component's refs and state: `saveStatus`, `isSavingRef`, `lastSavedContentRef`,
      `debounceTimerRef` (whether it holds a live timer) and the awaited save's HTML.
      `hasOnSave` is whether the parent passed an `onSave` callback. */
  class AutosaveEditor {
    const hasOnSave: bool
    var saveStatus: SaveStatus
    var isSaving: bool
    var lastSavedContent: string
    var timerPending: bool
    var inFlight: string

    function State(): SaveState
      reads this
    {
      SaveState(saveStatus, isSaving, lastSavedContent, timerPending, inFlight)
    }

    predicate Valid()
      reads this
    {
      Inv(State())
    }

    constructor (initialContent: string, hasOnSave: bool)
      ensures Valid() && State() == Initial(initialContent) && this.hasOnSave == hasOnSave
    {
      this.hasOnSave := hasOnSave;
      saveStatus := Saved;
      isSaving := false;
      lastSavedContent := initialContent;
      timerPending := false;
      inFlight := "";
    }

    /** The editor reports its creation, before any save can have started. */
    method OnCreate(html: string)
      requires Valid() && !isSaving
      modifies this
      ensures Valid() && State() == AfterCreate(old(State()), html)
    {
      lastSavedContent := html;
      saveStatus := Saved;
    }

    method OnUpdate(html: string)
      requires Valid()
      modifies this
      ensures Valid() && State() == AfterUpdate(old(State()), html)
    {
      if isSaving {
        return;
      }
      if html != lastSavedContent {
        saveStatus := Unsaved;
        // clearTimeout of the previous timer, then setTimeout(handleSave, SAVE_DEBOUNCE_MS):
        // one timer is pending either way.
        timerPending := true;
      }
    }

    /** `handleSave` up to the awaited `onSave`; `issued` tells whether `onSave` was called. */
    method HandleSave(html: string) returns (issued: bool)
      requires Valid() && !timerPending
      modifies this
      ensures Valid() && State() == StartSave(old(State()), hasOnSave, html)
      ensures issued == Issues(old(State()), hasOnSave, html)
    {
      issued := false;
      if !hasOnSave || isSaving {
        return;
      }
      if html == lastSavedContent && saveStatus != Error {
        if saveStatus == Unsaved {
          saveStatus := Saved;
        }
        return;
      }
      isSaving := true;
      saveStatus := Saving;
      inFlight := html;
      issued := true;
    }

    /** The awaited `onSave` resolved (`ok`) or rejected. */
    method SaveSettled(ok: bool)
      requires Valid() && isSaving
      modifies this
      ensures Valid() && State() == Settle(old(State()), ok)
    {
      if ok {
        lastSavedContent := inFlight;
        saveStatus := Saved;
      } else {
        saveStatus := Error;
      }
      isSaving := false;
      timerPending := false;
    }

    /** The pending debounce timer fires. */
    method TimerFired(html: string) returns (issued: bool)
      requires Valid() && timerPending
      modifies this
      ensures Valid() && State() == TimerFires(old(State()), hasOnSave, html)
      ensures issued == Issues(old(State()), hasOnSave, html)
    {
      timerPending := false;
      issued := HandleSave(html);
    }

    method HandleManualSave(html: string) returns (issued: bool)
      requires Valid()
      modifies this
      ensures Valid() && State() == ManualSave(old(State()), hasOnSave, html)
      ensures issued == Issues(old(State()), hasOnSave, html)
    {
      timerPending := false;
      issued := HandleSave(html);
    }
  }
}
