/** The list controller that script.js sets up on page load: the rendered list
    of items and the browser storage entry "tasks", changed in place by the
    command handlers. A command that the page reaches through a list item takes
    that item's position in the list. */
module TodoController {
  import opened Text
  import opened TodoModel

  class TaskList {
    /** The items of the list element, in document order. */
    var items: seq<Item>
    /** The value under the storage key "tasks", or None when it is absent. */
    var storage: Option<seq<Task>>

    /** The page never has two edit fields open: opening one moves the focus
        away from any other, which commits it first. */
    ghost predicate Valid()
      reads this
    {
      AtMostOneEditing(items)
    }

    /** A reload at this moment would show the list as it is now. */
    ghost predicate ReloadSafe()
      reads this
    {
      Reloaded(storage) == Tasks(items)
    }

    /** Page load: start from an empty list over the given storage, then
        restore the stored tasks. */
    constructor Open(stored: Option<seq<Task>>)
      ensures storage == stored
      ensures items == Rendered(Stored(stored))
      ensures Tasks(items) == Stored(stored) && NoneEditing(items)
      ensures Valid() && ReloadSafe()
    {
      items := [];
      storage := stored;
      new;
      Restore();
      TasksOfRendered(Stored(stored));
    }

    /** Builds one list item showing text, marked completed when asked, and
        appends it to the end of the list. */
    method AppendTask(text: string, completed: bool)
      modifies this`items
      ensures items == old(items) + [Item(Task(text, completed), Viewing)]
    {
      items := items + [Item(Task(text, completed), Viewing)];
    }

    /** Reads every item in document order into a snapshot and writes it to
        storage. An item with its edit field open has no text element to read,
        which throws before anything is written: ok reports whether the write
        happened. */
    method Persist() returns (ok: bool)
      modifies this`storage
      ensures ok == NoneEditing(items)
      ensures storage == if ok then Some(Tasks(items)) else old(storage)
    {
      var snapshot: seq<Task> := [];
      var k := 0;
      while k < |items|
        invariant 0 <= k <= |items|
        invariant snapshot == Tasks(items[..k])
        invariant NoneEditing(items[..k])
        invariant storage == old(storage)
      {
        if items[k].mode.Editing? {
          return false;
        }
        snapshot := snapshot + [items[k].task];
        k := k + 1;
      }
      assert items[..k] == items;
      storage := Some(snapshot);
      ok := true;
    }

    /** Appends an item for every stored task, in stored order, keeping its text
        and completed flag. Storage itself is only read. */
    method Restore()
      modifies this`items
      ensures items == old(items) + Rendered(Stored(storage))
    {
      var saved := storage;
      if saved.Some? {
        var ts := saved.value;
        var k := 0;
        while k < |ts|
          invariant 0 <= k <= |ts|
          invariant items == old(items) + Rendered(ts[..k])
        {
          AppendTask(ts[k].text, ts[k].completed);
          assert Rendered(ts[..k + 1]) == Rendered(ts[..k]) + [Item(ts[k], Viewing)];
          k := k + 1;
        }
        assert ts[..k] == ts;
      }
    }

    /** The add button: blank input is ignored; otherwise an incomplete task
        with the trimmed input is appended and the list is persisted. */
    method Add(input: string)
      requires NoneEditing(items)
      modifies this
      ensures Tasks(items) == Added(old(Tasks(items)), input)
      ensures NoneEditing(items) && Valid()
      ensures storage == if AllWhitespace(input) then old(storage) else Some(Tasks(items))
      ensures !AllWhitespace(input) ==> ReloadSafe()
      ensures old(ReloadSafe()) ==> ReloadSafe()
    {
      var text := Trim(input);
      if text != [] {
        AppendTask(text, false);
        var ok := Persist();
        ReloadRoundTrip(Tasks(items));
      }
    }

    /** A click on the text of item i flips its completed marker and persists
        the list. */
    method Toggle(i: nat)
      requires NoneEditing(items) && i < |items|
      modifies this
      ensures Tasks(items) == Toggled(old(Tasks(items)), i)
      ensures NoneEditing(items) && Valid()
      ensures storage == Some(Tasks(items)) && ReloadSafe()
    {
      var it := items[i];
      items := items[i := Item(it.task.(completed := !it.task.completed), it.mode)];
      var ok := Persist();
      ReloadRoundTrip(Tasks(items));
    }

    /** The delete button of item i removes that item and persists the list. */
    method Delete(i: nat)
      requires NoneEditing(items) && i < |items|
      modifies this
      ensures Tasks(items) == Removed(old(Tasks(items)), i)
      ensures NoneEditing(items) && Valid()
      ensures storage == Some(Tasks(items)) && ReloadSafe()
    {
      items := items[..i] + items[i + 1..];
      var ok := Persist();
      ReloadRoundTrip(Tasks(items));
    }

    /** A double click on the text of item i opens a single-line edit field
        filled with that text; the field drops any line breaks from it. The
        tasks and storage are untouched. */
    method BeginEdit(i: nat)
      requires NoneEditing(items) && i < |items|
      modifies this`items
      ensures Tasks(items) == old(Tasks(items))
      ensures items[i].mode == Editing(StripLineBreaks(items[i].task.text))
      ensures forall k | 0 <= k < |items| && k != i :: items[k] == old(items)[k]
      ensures Valid()
    {
      items := items[i := items[i].(mode := Editing(StripLineBreaks(items[i].task.text)))];
    }

    /** Typing or pasting into the open edit field of item i replaces its
        draft; being a single-line field, it drops any line breaks. */
    method SetDraft(i: nat, value: string)
      requires Valid() && i < |items| && items[i].mode.Editing?
      modifies this`items
      ensures Tasks(items) == old(Tasks(items))
      ensures items[i].mode == Editing(StripLineBreaks(value))
      ensures forall k | 0 <= k < |items| && k != i :: items[k] == old(items)[k]
      ensures Valid()
    {
      items := items[i := items[i].(mode := Editing(StripLineBreaks(value)))];
    }

    /** Focus leaving the edit field of item i: the trimmed draft, even an
        empty one, becomes the task's text, the text is shown again and the
        list is persisted. */
    method CommitEdit(i: nat)
      requires Valid() && i < |items| && items[i].mode.Editing?
      modifies this
      ensures Tasks(items) == Retexted(old(Tasks(items)), i, old(items[i].mode.draft))
      ensures NoneEditing(items) && Valid()
      ensures storage == Some(Tasks(items)) && ReloadSafe()
    {
      var it := items[i];
      items := items[i := Item(it.task.(text := Trim(it.mode.draft)), Viewing)];
      var ok := Persist();
      ReloadRoundTrip(Tasks(items));
    }
  }

  /** A sample session on a page with nothing stored: two adds, a toggle of
      the first task and a delete of the second, with the stored value after
      the toggle and after the delete. */
  method Walkthrough() returns (afterToggle: Option<seq<Task>>, afterDelete: Option<seq<Task>>)
    ensures afterToggle == Some([Task("Buy milk", true), Task("Walk dog", false)])
    ensures afterDelete == Some([Task("Buy milk", true)])
  {
    WalkthroughSteps("Buy milk", "Walk dog");
    var list := new TaskList.Open(None);
    list.Add("Buy milk");
    list.Add("Walk dog");
    list.Toggle(0);
    afterToggle := list.storage;
    list.Delete(1);
    afterDelete := list.storage;
  }
}
