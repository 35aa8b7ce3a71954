/** The state of the to-do component and the handlers that overwrite it.
    Each handler is one atomic transition of the component's state slots. */
module TodoApp {
  import opened Wrappers
  import opened JsString
  import opened Tasks
  import opened Theme

  class App {
    /** The task list. */
    var tasks: seq<Task>
    /** The draft in the "add" text box. */
    var input: string
    /** The selected view: "all", "active" or "completed". */
    var filter: string
    /** The edit session: the view position being renamed, if any. */
    var editingIndex: Option<nat>
    /** The draft text of the edit session. */
    var editingText: string
    /** The theme flag. */
    var darkMode: bool

    /** An idle edit session holds no draft: the draft is only set while a
        row is being edited, and it is cleared whenever the session ends.
        The code never states this; it is an invariant the handlers keep,
        set up by the constructor and preserved by every method. */
    ghost predicate Valid()
      reads this
    {
      editingIndex == None ==> editingText == ""
    }

    /** The first render. `saved` is the task list parsed from the store (None
        when the store holds nothing), `storedTheme` the stored theme token. */
    constructor (saved: Option<seq<Task>>, storedTheme: Option<string>)
      ensures Valid()
      ensures tasks == (if saved.Some? then saved.value else [])
      ensures input == "" && filter == "all"
      ensures editingIndex == None && editingText == ""
      ensures darkMode == DecodeTheme(storedTheme)
    {
      tasks := if saved.Some? then saved.value else [];
      input := "";
      filter := "all";
      editingIndex := None;
      editingText := "";
      darkMode := DecodeTheme(storedTheme);
    }

    /** Typing in the "add" text box. */
    method SetInput(text: string)
      requires Valid()
      modifies this`input
      ensures Valid() && input == text
    {
      input := text;
    }

    /** One of the three filter buttons. */
    method SetFilter(value: string)
      requires Valid()
      modifies this`filter
      ensures Valid() && filter == value
    {
      filter := value;
    }

    /** `addTask`: a blank draft changes nothing; otherwise the draft itself,
        not trimmed, is appended as an open task and the draft is cleared. */
    method AddTask()
      requires Valid()
      modifies this`tasks, this`input
      ensures Valid()
      ensures Blank(old(input)) ==> tasks == old(tasks) && input == old(input)
      ensures !Blank(old(input)) ==>
        && tasks == old(tasks) + [Task(old(input), false)]
        && input == ""
    {
      TrimEmptyIffBlank(input);
      if Trim(input) == "" {
        return;
      }
      tasks := tasks + [Task(input, false)];
      input := "";
    }

    /** `toggleTask`: copies the list and negates the flag of the entry at
        `index`. The position must be in the list, since the code reads the
        entry there unguarded. */
    method ToggleTask(index: nat)
      requires Valid()
      requires index < |tasks|
      modifies this`tasks
      ensures Valid() && tasks == Toggled(old(tasks), index)
    {
      var newTasks := tasks;
      newTasks := newTasks[index := newTasks[index].(completed := !newTasks[index].completed)];
      tasks := newTasks;
    }

    /** `deleteTask`: keeps every entry but the one at `index`. The edit
        session is left as it is. */
    method DeleteTask(index: nat)
      requires Valid()
      modifies this`tasks
      ensures Valid() && tasks == Delete(old(tasks), index)
    {
      tasks := Delete(tasks, index);
    }

    /** `saveTask`: a blank draft is rejected and the session stays open;
        otherwise the draft, not trimmed, replaces the text of the entry at
        `index` and the session ends. The entry is written unguarded, so a
        non-blank commit needs `index` in the list. */
    method SaveTask(index: nat)
      requires Valid()
      requires Blank(editingText) || index < |tasks|
      modifies this`tasks, this`editingIndex, this`editingText
      ensures Valid()
      ensures Blank(old(editingText)) ==>
        && tasks == old(tasks)
        && editingIndex == old(editingIndex)
        && editingText == old(editingText)
      ensures !Blank(old(editingText)) ==>
        && tasks == Renamed(old(tasks), index, old(editingText))
        && editingIndex == None
        && editingText == ""
    {
      TrimEmptyIffBlank(editingText);
      if Trim(editingText) == "" {
        return;
      }
      var newTasks := tasks;
      newTasks := newTasks[index := newTasks[index].(text := editingText)];
      tasks := newTasks;
      editingIndex := None;
      editingText := "";
    }

    /** The edit button of the row at view position `index`: opens a session
        on that position with the row's current text as the draft, replacing
        any session already open. */
    method StartEdit(index: nat)
      requires Valid()
      requires index < |Visible(tasks, filter)|
      modifies this`editingIndex, this`editingText
      ensures Valid()
      ensures editingIndex == Some(index)
      ensures editingText == Visible(tasks, filter)[index].text
    {
      editingIndex := Some(index);
      editingText := Visible(tasks, filter)[index].text;
    }

    /** Typing in the inline edit box, which exists only while a row is being
        edited. */
    method SetEditingText(text: string)
      requires Valid()
      requires editingIndex.Some?
      modifies this`editingText
      ensures Valid() && editingText == text
    {
      editingText := text;
    }

    /** The theme button. */
    method ToggleTheme()
      requires Valid()
      modifies this`darkMode
      ensures Valid() && darkMode == !old(darkMode)
    {
      darkMode := !darkMode;
    }

    /** The theme effect's write (line 30 of `src/App.jsx`): the token stored
        for the current flag, which reads back as the same flag. */
    function ThemeToken(): (token: string)
      reads this
      ensures DecodeTheme(Some(token)) == darkMode
    {
      EncodeTheme(darkMode)
    }
  }

  /** Every row of the rendered view has a position that is also a position
      of the list, so the checkbox of any shown row meets `ToggleTask`'s
      requirement, and a non-blank commit from an edited row meets
      `SaveTask`'s. */
  lemma ViewPositionInList(tasks: seq<Task>, filter: string, index: nat)
    requires index < |Visible(tasks, filter)|
    ensures index < |tasks|
  {
  }

  /** Adding two tasks and finishing the first: the "active" view then shows
      only the second. */
  method ScenarioFilter()
  {
    var app := new App(None, None);
    app.SetInput("a");
    assert !IsWhitespace("a"[0]);
    app.AddTask();
    app.SetInput("b");
    assert !IsWhitespace("b"[0]);
    app.AddTask();
    app.ToggleTask(0);
    assert app.tasks == [Task("a", true), Task("b", false)];
    VisibleSingleton(Task("a", true), "active");
    VisibleSingleton(Task("b", false), "active");
    VisibleAppend([Task("a", true)], [Task("b", false)], "active");
    assert Visible(app.tasks, "active") == [Task("b", false)];
  }

  /** Renaming the only task: a blank draft is rejected and keeps the session
      open, a non-blank one is stored and ends the session. */
  method ScenarioEdit()
  {
    var app := new App(Some([Task("x", false)]), None);
    app.StartEdit(0);
    assert app.editingText == "x";
    app.SetEditingText("");
    app.SaveTask(0);
    assert app.tasks == [Task("x", false)] && app.editingIndex == Some(0);
    app.SetEditingText("y");
    assert !IsWhitespace("y"[0]);
    app.SaveTask(0);
    assert app.tasks == [Task("y", false)] && app.editingIndex == None;
  }

  /** With no stored token the theme starts light; one toggle writes "dark". */
  method ScenarioTheme()
  {
    var app := new App(None, None);
    assert !app.darkMode;
    app.ToggleTheme();
    assert app.ThemeToken() == "dark";
  }
}
