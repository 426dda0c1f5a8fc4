/** The logical content of the to-do list: the ordered task records shown in
    the list, the per-item editing state, and the pure operations on the
    record sequence that the controller's commands are specified by. */
module TodoModel {
  import opened Text

  datatype Option<T> = None | Some(value: T)

  /** One to-do entry, as it is persisted. */
  datatype Task = Task(text: string, completed: bool)

  /** Whether an item shows its text, or an edit field holding a draft. */
  datatype Mode = Viewing | Editing(draft: string)

  /** One rendered list item: its task and its display mode. While an item is
      being edited it keeps its last committed text. */
  datatype Item = Item(task: Task, mode: Mode)

  /** The task records of a rendered list, in display order. */
  function Tasks(items: seq<Item>): seq<Task> {
    seq(|items|, k requires 0 <= k < |items| => items[k].task)
  }

  predicate NoneEditing(items: seq<Item>) {
    forall k | 0 <= k < |items| :: items[k].mode == Viewing
  }

  predicate AtMostOneEditing(items: seq<Item>) {
    forall j, k | 0 <= j < |items| && 0 <= k < |items| ::
      items[j].mode.Editing? && items[k].mode.Editing? ==> j == k
  }

  /** The items built for a sequence of tasks, each shown as text. */
  function Rendered(ts: seq<Task>): seq<Item> {
    seq(|ts|, k requires 0 <= k < |ts| => Item(ts[k], Viewing))
  }

  /** The task sequence found in storage; an absent entry reads as no tasks. */
  function Stored(storage: Option<seq<Task>>): seq<Task> {
    match storage
    case None => []
    case Some(ts) => ts
  }

  /** What a reload would show: the tasks of the list rebuilt from storage. */
  function Reloaded(storage: Option<seq<Task>>): seq<Task> {
    Tasks(Rendered(Stored(storage)))
  }

  /** Every task text has no white space at either end. */
  predicate AllTextsTrimmed(ts: seq<Task>) {
    forall k | 0 <= k < |ts| :: IsTrimmed(ts[k].text)
  }

  // The task sequence after each command.

  function Added(ts: seq<Task>, input: string): seq<Task> {
    var text := Trim(input);
    if text == [] then ts else ts + [Task(text, false)]
  }

  function Toggled(ts: seq<Task>, i: nat): seq<Task>
    requires i < |ts|
  {
    ts[i := ts[i].(completed := !ts[i].completed)]
  }

  function Retexted(ts: seq<Task>, i: nat, value: string): seq<Task>
    requires i < |ts|
  {
    ts[i := ts[i].(text := Trim(value))]
  }

  function Removed(ts: seq<Task>, i: nat): seq<Task>
    requires i < |ts|
  {
    ts[..i] + ts[i + 1..]
  }

  // Properties of the commands.

  /** Adding blank input changes nothing; adding anything else appends exactly
      one incomplete task holding the trimmed input and keeps the others. */
  lemma AddSpec(ts: seq<Task>, input: string)
    ensures AllWhitespace(input) ==> Added(ts, input) == ts
    ensures !AllWhitespace(input) ==>
      |Added(ts, input)| == |ts| + 1 && Added(ts, input)[..|ts|] == ts &&
      Added(ts, input)[|ts|] == Task(Trim(input), false) && Trim(input) != []
  {
  }

  /** Deleting the task just added gives back the list before the add. */
  lemma AddThenRemove(ts: seq<Task>, input: string)
    requires !AllWhitespace(input)
    ensures Removed(Added(ts, input), |ts|) == ts
  {
    assert Added(ts, input)[..|ts|] == ts;
  }

  /** Toggling task i flips its flag and nothing else. */
  lemma ToggleSpec(ts: seq<Task>, i: nat)
    requires i < |ts|
    ensures |Toggled(ts, i)| == |ts|
    ensures Toggled(ts, i)[i].text == ts[i].text
    ensures Toggled(ts, i)[i].completed == !ts[i].completed
    ensures forall k | 0 <= k < |ts| && k != i :: Toggled(ts, i)[k] == ts[k]
  {
  }

  /** Toggling the same task twice restores the list. */
  lemma ToggleTwice(ts: seq<Task>, i: nat)
    requires i < |ts|
    ensures Toggled(Toggled(ts, i), i) == ts
  {
  }

  /** Committing value as the text of task i sets that text to the trimmed value
      (possibly empty) and changes nothing else. */
  lemma RetextSpec(ts: seq<Task>, i: nat, value: string)
    requires i < |ts|
    ensures |Retexted(ts, i, value)| == |ts|
    ensures Retexted(ts, i, value)[i] == Task(Trim(value), ts[i].completed)
    ensures IsTrimmed(Retexted(ts, i, value)[i].text)
    ensures Retexted(ts, i, value)[i].text == [] <==> AllWhitespace(value)
    ensures forall k | 0 <= k < |ts| && k != i :: Retexted(ts, i, value)[k] == ts[k]
  {
  }

  /** Committing an edit whose draft is still what the edit field was filled
      with leaves the list as it was exactly when the task's text was trimmed
      and held no line breaks; any other text is rewritten. */
  lemma RetextUnchanged(ts: seq<Task>, i: nat)
    requires i < |ts|
    ensures Retexted(ts, i, StripLineBreaks(ts[i].text)) == ts <==>
            IsTrimmed(ts[i].text) && NoLineBreaks(ts[i].text)
  {
    var t := ts[i].text;
    if IsTrimmed(t) && NoLineBreaks(t) {
      StripLineBreaksFixed(t);
      TrimFixedIff(t);
    }
    if Retexted(ts, i, StripLineBreaks(t)) == ts {
      assert Trim(StripLineBreaks(t)) == t by {
        assert Retexted(ts, i, StripLineBreaks(t))[i].text == t;
      }
      TrimKeepsNoLineBreaks(StripLineBreaks(t));
    }
  }

  /** Deleting task i removes exactly that task; the others keep their order. */
  lemma RemoveSpec(ts: seq<Task>, i: nat)
    requires i < |ts|
    ensures |Removed(ts, i)| == |ts| - 1
    ensures forall k | 0 <= k < i :: Removed(ts, i)[k] == ts[k]
    ensures forall k | i <= k < |ts| - 1 :: Removed(ts, i)[k] == ts[k + 1]
    ensures multiset(Removed(ts, i)) + multiset{ts[i]} == multiset(ts)
  {
    assert ts == ts[..i] + [ts[i]] + ts[i + 1..];
  }

  /** Putting the deleted task back at its position restores the list. */
  lemma RemoveThenReinsert(ts: seq<Task>, i: nat)
    requires i < |ts|
    ensures Removed(ts, i)[..i] + [ts[i]] + Removed(ts, i)[i..] == ts
  {
    var r := Removed(ts, i);
    assert r[..i] == ts[..i] && r[i..] == ts[i + 1..];
  }

  /** Every command keeps all task texts trimmed, so a list built only by the
      commands never holds untrimmed text. */
  lemma CommandsKeepTextsTrimmed(ts: seq<Task>, i: nat, input: string)
    requires AllTextsTrimmed(ts)
    ensures AllTextsTrimmed(Added(ts, input))
    ensures i < |ts| ==> AllTextsTrimmed(Toggled(ts, i))
    ensures i < |ts| ==> AllTextsTrimmed(Retexted(ts, i, input))
    ensures i < |ts| ==> AllTextsTrimmed(Removed(ts, i))
  {
    if i < |ts| {
      RemoveSpec(ts, i);
    }
  }

  /** Rendering a task sequence and reading it back gives the same sequence. */
  lemma TasksOfRendered(ts: seq<Task>)
    ensures Tasks(Rendered(ts)) == ts
    ensures NoneEditing(Rendered(ts))
  {
  }

  /** Reloading a persisted snapshot shows exactly that snapshot, and reloading
      with nothing stored shows an empty list. */
  lemma ReloadRoundTrip(ts: seq<Task>)
    ensures Reloaded(Some(ts)) == ts
    ensures Reloaded(None) == []
  {
    TasksOfRendered(ts);
  }

  /** The task sequences of a sample session, for any two non-blank trimmed
      texts a and b: add a, add b, toggle the first task, delete the second. */
  lemma WalkthroughSteps(a: string, b: string)
    requires a != [] && b != [] && IsTrimmed(a) && IsTrimmed(b)
    ensures Added([], a) == [Task(a, false)]
    ensures Added([Task(a, false)], b) == [Task(a, false), Task(b, false)]
    ensures Toggled([Task(a, false), Task(b, false)], 0) == [Task(a, true), Task(b, false)]
    ensures Removed([Task(a, true), Task(b, false)], 1) == [Task(a, true)]
  {
    TrimFixedIff(a);
    TrimFixedIff(b);
  }
}
