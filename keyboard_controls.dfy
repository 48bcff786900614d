/**
 * The decision made by `handleKeyDown` in
 * src/components/transcription/hooks/useKeyboardControls.ts: which of the
 * three navigation callbacks a key press invokes, and whether the browser's
 * default action is prevented.
 */
module KeyboardControls {
  import opened Wrappers

  /** The parts of the event target the handler looks at. */
  datatype Element = Element(tagName: string, isContentEditable: bool)

  datatype Action = PrevSegment | NextSegment | TogglePlayPause

  /** At most one callback, and whether `preventDefault` is called. */
  datatype KeyOutcome = KeyOutcome(action: Option<Action>, preventDefault: bool)

  /** Focus is somewhere the user types text; `target` is `None` when the event has none. */
  predicate IsTextEntry(target: Option<Element>)
  {
    target.Some? &&
    (target.value.tagName in {"INPUT", "SELECT", "TEXTAREA"} || target.value.isContentEditable)
  }

  /** The `event.key` value each action answers to. */
  function KeyFor(action: Action): string
  {
    match action
    case PrevSegment => "ArrowLeft"
    case NextSegment => "ArrowRight"
    case TogglePlayPause => " "
  }

  function HandleKeyDown(target: Option<Element>, key: string): (r: KeyOutcome)
    ensures r.preventDefault <==> r.action.Some?
    ensures IsTextEntry(target) ==> r.action.None?
    ensures r.action.Some? ==> key == KeyFor(r.action.value)
  {
    if IsTextEntry(target) then KeyOutcome(None, false)
    else if key == "ArrowLeft" then KeyOutcome(Some(PrevSegment), true)
    else if key == "ArrowRight" then KeyOutcome(Some(NextSegment), true)
    else if key == " " then KeyOutcome(Some(TogglePlayPause), true)
    else KeyOutcome(None, false)
  }

  /**
   * Outside a text field each action's key invokes exactly that action, and a
   * key that belongs to no action invokes nothing and leaves the default alone.
   */
  lemma KeyDispatch(target: Option<Element>, key: string)
    requires !IsTextEntry(target)
    ensures forall a :: key == KeyFor(a) ==> HandleKeyDown(target, key) == KeyOutcome(Some(a), true)
    ensures (forall a :: key != KeyFor(a)) ==> HandleKeyDown(target, key) == KeyOutcome(None, false)
  {
    assert KeyFor(PrevSegment) == "ArrowLeft" && KeyFor(NextSegment) == "ArrowRight";
    assert KeyFor(TogglePlayPause) == " ";
  }

  /** The space bar typed into a text input does not toggle playback. */
  lemma SpaceInInputIgnored(tagName: string)
    requires tagName in {"INPUT", "SELECT", "TEXTAREA"}
    ensures HandleKeyDown(Some(Element(tagName, false)), " ") == KeyOutcome(None, false)
  {
  }
}
