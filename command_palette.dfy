/**
 * The command palette (src/CommandPalette.jsx): a case-insensitive filter
 * over a fixed command table and the keyboard state machine that moves the
 * highlighted entry and dispatches or closes.
 */
module CommandPalette {
  import opened Wrappers
  import opened Text

  datatype Command = Command(title: string, action: string)  // `title` is the source's `label`

  /** `DEFAULT_COMMANDS` */
  const DefaultCommands: seq<Command> := [
    Command("New File", "newFile"),
    Command("Save File", "saveFile"),
    Command("Delete File", "deleteFile"),
    Command("Search in Files", "search"),
    Command("Open Settings", "settings"),
    Command("Toggle Terminal", "toggleTerminal"),
    Command("Show Riley Agent", "showRiley"),
    Command("About", "about")
  ]

  /** `cmd.label.toLowerCase().includes(query.toLowerCase())` */
  predicate Matches(cmd: Command, query: string) {
    Contains(Lower(cmd.title), Lower(query))
  }

  /** `r` is `s` with some elements left out and the rest in their order. */
  predicate IsSubsequence<T(==)>(r: seq<T>, s: seq<T>)
    decreases |s|
  {
    r == [] || (s != [] && ((r[0] == s[0] && IsSubsequence(r[1..], s[1..])) || IsSubsequence(r, s[1..])))
  }

  lemma {:induction false} SubsequenceMembers<T>(r: seq<T>, s: seq<T>)
    requires IsSubsequence(r, s)
    ensures forall x :: x in r ==> x in s
    decreases |s|
  {
    if r != [] {
      if r[0] == s[0] && IsSubsequence(r[1..], s[1..]) {
        SubsequenceMembers(r[1..], s[1..]);
        assert forall x :: x in r ==> x == r[0] || x in r[1..];
      } else {
        SubsequenceMembers(r, s[1..]);
      }
    }
  }

  /** `cmds.filter(cmd => Matches(cmd, query))` */
  function FilterCommands(cmds: seq<Command>, query: string): (r: seq<Command>)
    ensures forall c :: c in r <==> c in cmds && Matches(c, query)
    ensures IsSubsequence(r, cmds)
  {
    if cmds == [] then []
    else
      var rest := FilterCommands(cmds[1..], query);
      if Matches(cmds[0], query) then
        assert ([cmds[0]] + rest)[1..] == rest;
        [cmds[0]] + rest
      else rest
  }

  /** The list shown for `query`: the matching commands, in table order. */
  function Filter(query: string): (r: seq<Command>)
    ensures forall c :: c in r <==> c in DefaultCommands && Matches(c, query)
    ensures IsSubsequence(r, DefaultCommands)
    ensures |r| <= |DefaultCommands|
  {
    SubsequenceLength(FilterCommands(DefaultCommands, query), DefaultCommands);
    FilterCommands(DefaultCommands, query)
  }

  lemma {:induction false} SubsequenceLength<T>(r: seq<T>, s: seq<T>)
    requires IsSubsequence(r, s)
    ensures |r| <= |s|
    decreases |s|
  {
    if r != [] {
      if r[0] == s[0] && IsSubsequence(r[1..], s[1..]) {
        SubsequenceLength(r[1..], s[1..]);
      } else {
        SubsequenceLength(r, s[1..]);
      }
    }
  }

  lemma {:induction false} FilterKeepsAllMatching(cmds: seq<Command>, query: string)
    requires forall c :: c in cmds ==> Matches(c, query)
    ensures FilterCommands(cmds, query) == cmds
  {
    if cmds != [] {
      FilterKeepsAllMatching(cmds[1..], query);
    }
  }

  /** An empty query keeps all eight commands, in order. */
  lemma EmptyQueryKeepsAll()
    ensures Filter("") == DefaultCommands
    ensures |Filter("")| == 8
  {
    forall c | c in DefaultCommands ensures Matches(c, "") {
      ContainsEmpty(Lower(c.title));
    }
    FilterKeepsAllMatching(DefaultCommands, "");
  }

  predicate DistinctActions(cmds: seq<Command>) {
    forall i, j :: 0 <= i < j < |cmds| ==> cmds[i].action != cmds[j].action
  }

  /** The actions of the table are pairwise distinct (they are the React keys). */
  lemma DefaultActionsDistinct()
    ensures DistinctActions(DefaultCommands)
  {
  }

  lemma {:induction false} SubsequenceKeepsDistinct(r: seq<Command>, s: seq<Command>)
    requires IsSubsequence(r, s) && DistinctActions(s)
    ensures DistinctActions(r)
    decreases |s|
  {
    if r != [] {
      if r[0] == s[0] && IsSubsequence(r[1..], s[1..]) {
        SubsequenceKeepsDistinct(r[1..], s[1..]);
        SubsequenceMembers(r[1..], s[1..]);
        forall j | 0 < j < |r| ensures r[0].action != r[j].action {
          assert r[j] in r[1..];
          var k :| 0 <= k < |s[1..]| && s[1..][k] == r[j];
          assert s[k + 1] == r[j];
        }
        forall i, j | 0 <= i < j < |r| ensures r[i].action != r[j].action {
          if i > 0 {
            assert r[1..][i - 1] == r[i] && r[1..][j - 1] == r[j];
          }
        }
      } else {
        SubsequenceKeepsDistinct(r, s[1..]);
      }
    }
  }

  /** Every filtered list has distinct actions, so they stay usable as keys. */
  lemma FilteredActionsDistinct(query: string)
    ensures DistinctActions(Filter(query))
  {
    DefaultActionsDistinct();
    SubsequenceKeepsDistinct(Filter(query), DefaultCommands);
  }

  datatype Key = ArrowDown | ArrowUp | Enter | Escape | OtherKey

  /** The values `selected` can hold while `n` entries are listed. */
  predicate SelectionOk(s: int, n: nat) {
    if n == 0 then s == 0 || s == -1 else 0 <= s < n
  }

  /** The update `handleKeyDown` applies to `selected` for `key` with `n` entries listed. */
  function NextSelected(key: Key, s: int, n: nat): (r: int)
    ensures key.ArrowDown? ==> r <= s + 1 && r <= n - 1 && (r == s + 1 || r == n - 1)
    ensures key.ArrowUp? ==> r >= 0 && r >= s - 1 && (r == s - 1 || r == 0)
    ensures !key.ArrowDown? && !key.ArrowUp? ==> r == s
    ensures SelectionOk(s, n) ==> SelectionOk(r, n)
  {
    match key
    case ArrowDown => if s + 1 < n - 1 then s + 1 else n - 1
    case ArrowUp => if s - 1 > 0 then s - 1 else 0
    case _ => s
  }

  /** The action Enter sends to `onCommand`: the highlighted entry's, if it exists. */
  function EnterAction(filtered: seq<Command>, s: int): (r: Option<string>)
    ensures r.Some? <==> 0 <= s < |filtered|
    ensures r.Some? ==> r.value == filtered[s].action
  {
    if 0 <= s < |filtered| then Some(filtered[s].action) else None
  }

  /** With entries listed, Enter always dispatches the highlighted one. */
  lemma EnterDispatchesWhenListed(filtered: seq<Command>, s: int)
    requires SelectionOk(s, |filtered|) && |filtered| > 0
    ensures EnterAction(filtered, s) == Some(filtered[s].action)
  {
  }

  /** ArrowDown on an empty list drives `selected` to -1, after which Enter does nothing. */
  lemma ArrowDownOnEmptyThenEnter()
    ensures NextSelected(ArrowDown, 0, 0) == -1
    ensures EnterAction([], NextSelected(ArrowDown, 0, 0)).None?
  {
  }

  class Palette {
    var query: string
    var filtered: seq<Command>
    var selected: int

    ghost predicate Valid()
      reads this
    {
      filtered == Filter(query) && SelectionOk(selected, |filtered|)
    }

    /** The initial state: empty query, the whole table, first entry highlighted. */
    constructor ()
      ensures Valid()
      ensures query == "" && filtered == DefaultCommands && selected == 0
    {
      EmptyQueryKeepsAll();
      query := "";
      filtered := DefaultCommands;
      selected := 0;
    }

    /** `onChange` of the input followed by the effect on `[query]`, which runs only on a change. */
    method SetQuery(q: string)
      requires Valid()
      modifies this
      ensures Valid()
      ensures query == q
      ensures q != old(query) ==> filtered == Filter(q) && selected == 0
      ensures q == old(query) ==> filtered == old(filtered) && selected == old(selected)
    {
      if q != query {
        query := q;
        filtered := Filter(q);
        selected := 0;
      }
    }

    /** `handleKeyDown`: returns the action sent to `onCommand`, and whether `onClose` is called. */
    method KeyDown(key: Key) returns (command: Option<string>, close: bool)
      requires Valid()
      modifies this`selected
      ensures Valid()
      ensures selected == NextSelected(key, old(selected), |filtered|)
      ensures command == (if key.Enter? then EnterAction(filtered, old(selected)) else None)
      ensures close <==> key.Escape? || command.Some?
    {
      command, close := None, false;
      if key.ArrowDown? {
        selected := if selected + 1 < |filtered| - 1 then selected + 1 else |filtered| - 1;
      } else if key.ArrowUp? {
        selected := if selected - 1 > 0 then selected - 1 else 0;
      } else if key.Enter? {
        if 0 <= selected < |filtered| {
          command := Some(filtered[selected].action);
          close := true;
        }
      } else if key.Escape? {
        close := true;
      }
    }

    /** `onMouseEnter` on entry `i` highlights it. */
    method Hover(i: nat)
      requires Valid() && i < |filtered|
      modifies this`selected
      ensures Valid() && selected == i
    {
      selected := i;
    }

    /** `onClick` on entry `i`: returns the action sent to `onCommand`, and whether `onClose` is called. */
    method Click(i: nat) returns (command: string, close: bool)
      requires Valid() && i < |filtered|
      ensures command == filtered[i].action
      ensures command in set c | c in DefaultCommands :: c.action
      ensures close
    {
      command := filtered[i].action;
      assert filtered[i] in DefaultCommands;
      close := true;
    }
  }
}
