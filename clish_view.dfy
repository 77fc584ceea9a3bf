/**
 * A clish view (clish/view/view.c): a named, prompted set of commands.
 *
 * The view's command tree is held as its tree-order sequence of commands.
 * The command tree is ordered case-insensitively (lub_string_nocasecmp on
 * the command names), so a lookup finds a command whose name equals the key
 * ignoring case, and the successor of a key is the first command whose name
 * sorts after it ignoring case. The words of a line (what lub_argv makes of
 * it) are given as a sequence.
 */
module ClishView {
  import opened Wrappers
  import opened LubString

  /** clish_command_t, with the attributes the view consults. */
  datatype Command = Command(
    name: string,
    help: Option<string>,
    action: Option<string>,
    builtin: Option<string>,
    view: Option<string>)

  /** What clish_command_new(name, help) builds: no action, builtin or view yet. */
  function NewCommandRecord(name: string, help: Option<string>): Command
  {
    Command(name, help, None, None, None)
  }

  /** The command tree's order: names strictly ascending, ignoring case. */
  ghost predicate Sorted(tree: seq<Command>) {
    forall i, j :: 0 <= i < j < |tree| ==> NoCaseLess(tree[i].name, tree[j].name)
  }

  // ---------------------------------------------------------------------
  // The command tree's queries (lub_bintree_find, findfirst, findnext)
  // ---------------------------------------------------------------------

  /** clish_view_find_command: the command whose name equals `key` ignoring case. */
  function FindCommand(tree: seq<Command>, key: string): (r: Option<Command>)
    ensures r.Some? ==> r.value in tree && Lower(r.value.name) == Lower(key)
    ensures r.None? ==> forall i :: 0 <= i < |tree| ==> Lower(tree[i].name) != Lower(key)
  {
    if |tree| == 0 then None
    else if NoCaseCmp(tree[0].name, key) == 0 then Some(tree[0])
    else
      var r := FindCommand(tree[1..], key);
      assert forall i :: 1 <= i < |tree| ==> tree[i] == tree[1..][i - 1];
      r
  }

  /** The first command in tree order (None for an empty tree). */
  function First(tree: seq<Command>): Option<Command>
  {
    if |tree| == 0 then None else Some(tree[0])
  }

  /** The position of the first command from `i` on whose name sorts after `key`. */
  function FindNextFrom(tree: seq<Command>, key: string, i: nat): (r: nat)
    requires i <= |tree|
    ensures i <= r <= |tree|
    decreases |tree| - i
  {
    if i == |tree| then i
    else if NoCaseCmp(tree[i].name, key) > 0 then i
    else FindNextFrom(tree, key, i + 1)
  }

  /** The scan from `i` passes over names not after `key` and stops at the first one after it. */
  lemma {:induction false} FindNextFromStops(tree: seq<Command>, key: string, i: nat)
    requires i <= |tree|
    ensures forall j :: i <= j < FindNextFrom(tree, key, i) ==> !NoCaseLess(key, tree[j].name)
    ensures FindNextFrom(tree, key, i) < |tree| ==> NoCaseLess(key, tree[FindNextFrom(tree, key, i)].name)
    decreases |tree| - i
  {
    if i < |tree| && NoCaseCmp(tree[i].name, key) <= 0 {
      FindNextFromStops(tree, key, i + 1);
    }
  }

  /** lub_bintree_findnext: the command after `key` in the tree's order. */
  function FindNext(tree: seq<Command>, key: string): Option<Command>
  {
    var i := FindNextFrom(tree, key, 0);
    if i < |tree| then Some(tree[i]) else None
  }

  /** In a sorted tree, the successor of `key` starts the run of every name after `key`. */
  lemma {:induction false} SuccessorIsStrict(tree: seq<Command>, key: string)
    requires Sorted(tree)
    ensures forall j :: 0 <= j < |tree| ==> (FindNextFrom(tree, key, 0) <= j <==> NoCaseLess(key, tree[j].name))
  {
    var r := FindNextFrom(tree, key, 0);
    FindNextFromStops(tree, key, 0);
    forall j | r < j < |tree|
      ensures NoCaseLess(key, tree[j].name)
    {
      NoCaseLessTrans(key, tree[r].name, tree[j].name);
    }
  }

  /** In a sorted tree, the successor of a member's name is the next member. */
  lemma {:induction false} NextOfMember(tree: seq<Command>, j: nat)
    requires Sorted(tree) && j < |tree|
    ensures FindNextFrom(tree, tree[j].name, 0) == j + 1
  {
    NextOfMemberFrom(tree, j, 0);
  }

  /** The scan for the successor of member `j`, started at any position up to `j`, ends just past it. */
  lemma {:induction false} NextOfMemberFrom(tree: seq<Command>, j: nat, i: nat)
    requires Sorted(tree) && i <= j < |tree|
    ensures FindNextFrom(tree, tree[j].name, i) == j + 1
    decreases j - i
  {
    var key := tree[j].name;
    if i < j {
      assert NoCaseLess(tree[i].name, key);
      NoCaseLessAsymmetric(tree[i].name, key);
      NextOfMemberFrom(tree, j, i + 1);
    } else {
      NoCaseLessAsymmetric(key, key);
      if j + 1 < |tree| {
        assert NoCaseLess(key, tree[j + 1].name);
      }
      assert FindNextFrom(tree, key, j + 1) == j + 1;
    }
  }

  // ---------------------------------------------------------------------
  // The command tree's updates (lub_bintree_insert, lub_bintree_remove)
  // ---------------------------------------------------------------------

  /**
   * lub_bintree_insert: None (the -1 answer) when a command of the same name,
   * ignoring case, is already present; otherwise the tree with `c` added in
   * its place.
   */
  function Insert(tree: seq<Command>, c: Command): (r: Option<seq<Command>>)
    requires Sorted(tree)
    ensures r.None? <==> HasName(tree, c.name)
    ensures r.Some? ==> Sorted(r.value) && multiset(r.value) == multiset(tree) + multiset{c}
  {
    if |tree| == 0 then Some([c])
    else
      var k := NoCaseCmp(c.name, tree[0].name);
      if k == 0 then
        assert Lower(tree[0].name) == Lower(c.name);
        None
      else if k < 0 then
        InsertFront(tree, c);
        Some([c] + tree)
      else
        SortedTail(tree);
        HasNameTail(tree, c.name);
        match Insert(tree[1..], c)
        case None => None
        case Some(t) =>
          InsertBehind(tree, c, t);
          Some([tree[0]] + t)
  }

  /** Some command of `tree` has the name `name`, ignoring case. */
  predicate HasName(tree: seq<Command>, name: string) {
    exists i :: 0 <= i < |tree| && Lower(tree[i].name) == Lower(name)
  }

  lemma SortedTail(tree: seq<Command>)
    requires Sorted(tree) && |tree| > 0
    ensures Sorted(tree[1..])
  {
  }

  lemma HasNameTail(tree: seq<Command>, name: string)
    requires |tree| > 0 && Lower(tree[0].name) != Lower(name)
    ensures HasName(tree, name) <==> HasName(tree[1..], name)
  {
    if HasName(tree, name) {
      var i :| 0 <= i < |tree| && Lower(tree[i].name) == Lower(name);
      assert tree[1..][i - 1] == tree[i];
    }
    if HasName(tree[1..], name) {
      var i :| 0 <= i < |tree[1..]| && Lower(tree[1..][i].name) == Lower(name);
      assert tree[i + 1] == tree[1..][i];
    }
  }

  lemma InsertFront(tree: seq<Command>, c: Command)
    requires Sorted(tree) && |tree| > 0 && NoCaseCmp(c.name, tree[0].name) < 0
    ensures Sorted([c] + tree)
    ensures multiset([c] + tree) == multiset(tree) + multiset{c}
    ensures !HasName(tree, c.name)
  {
    forall i | 0 <= i < |tree|
      ensures NoCaseLess(c.name, tree[i].name) && Lower(tree[i].name) != Lower(c.name)
    {
      if i > 0 {
        NoCaseLessTrans(c.name, tree[0].name, tree[i].name);
      }
      NoCaseLessAsymmetric(c.name, tree[i].name);
    }
    NoCaseLessAsymmetric(c.name, c.name);
  }

  lemma InsertBehind(tree: seq<Command>, c: Command, t: seq<Command>)
    requires Sorted(tree) && |tree| > 0 && NoCaseCmp(c.name, tree[0].name) > 0
    requires Sorted(t) && multiset(t) == multiset(tree[1..]) + multiset{c}
    ensures Sorted([tree[0]] + t)
    ensures multiset([tree[0]] + t) == multiset(tree) + multiset{c}
  {
    forall j | 0 <= j < |t|
      ensures NoCaseLess(tree[0].name, t[j].name)
    {
      assert t[j] in multiset(t);
      if t[j] != c {
        assert t[j] in multiset(tree[1..]);
        var m :| 0 <= m < |tree[1..]| && tree[1..][m] == t[j];
        assert tree[m + 1] == t[j];
      }
    }
    assert tree == [tree[0]] + tree[1..];
  }

  /** lub_bintree_remove: the tree without the command `c`. */
  function Remove(tree: seq<Command>, c: Command): (r: seq<Command>)
    ensures multiset(r) == multiset(tree) - multiset{c}
  {
    if |tree| == 0 then []
    else if tree[0] == c then
      assert tree == [tree[0]] + tree[1..];
      tree[1..]
    else
      assert tree == [tree[0]] + tree[1..];
      [tree[0]] + Remove(tree[1..], c)
  }

  // ---------------------------------------------------------------------
  // Prefix resolution
  // ---------------------------------------------------------------------

  /** The first `j` words, joined with single spaces, name a command. */
  predicate Names(tree: seq<Command>, words: seq<string>, j: nat)
    requires j <= |words|
  {
    FindCommand(tree, Join(words[..j])).Some?
  }

  /**
   * How many leading words name commands one after the other, starting from
   * `i` words that already did: the words `words[..j]` joined with single
   * spaces name a command for every j up to the answer, and the next join
   * (if any) does not.
   */
  function Depth(tree: seq<Command>, words: seq<string>, i: nat): (d: nat)
    requires i <= |words|
    ensures i <= d <= |words|
    decreases |words| - i
  {
    if i < |words| && Names(tree, words, i + 1) then Depth(tree, words, i + 1)
    else i
  }

  /** What clish_view_resolve_prefix's buffer holds before word `i` is appended. */
  function BufferBefore(words: seq<string>, i: nat): string
    requires i <= |words|
  {
    if i == 0 then "" else Join(words[..i]) + " "
  }

  /** Appending word `i` to the buffer joins the first i + 1 words, so the next lookup is Names(i + 1). */
  lemma BufferThrough(words: seq<string>, i: nat)
    requires i < |words|
    ensures BufferBefore(words, i) + words[i] == Join(words[..i + 1])
  {
    if i == 0 {
      JoinOne(words);
    } else {
      JoinSnoc(words, i);
    }
  }

  /** The command the first `d` words name, joined with single spaces (None for no words). */
  function Found(tree: seq<Command>, words: seq<string>, d: nat): Option<Command>
    requires d <= |words|
  {
    if d == 0 then None else FindCommand(tree, Join(words[..d]))
  }

  /** The command the longest matching run of leading words names. */
  function LongestMatch(tree: seq<Command>, words: seq<string>): Option<Command>
  {
    Found(tree, words, Depth(tree, words, 0))
  }

  /** One lookup of clish_view_resolve_prefix: a hit goes one word deeper, a miss ends the run. */
  lemma ResolveStep(tree: seq<Command>, words: seq<string>, i: nat, cmd: Option<Command>)
    requires i < |words| && cmd == FindCommand(tree, Join(words[..i + 1]))
    ensures cmd.None? ==> Depth(tree, words, i) == i
    ensures cmd.Some? ==> Depth(tree, words, i) == Depth(tree, words, i + 1) && cmd == Found(tree, words, i + 1)
  {
  }

  /** Every join of the first j words inside the run counted from `i` names a command. */
  lemma {:induction false} DepthRun(tree: seq<Command>, words: seq<string>, i: nat, j: nat)
    requires i <= |words| && i < j <= Depth(tree, words, i)
    ensures Names(tree, words, j)
    decreases |words| - i
  {
    if j > i + 1 {
      DepthRun(tree, words, i + 1, j);
    }
  }

  /** The run counted from `i` ends where the next join names no command. */
  lemma {:induction false} DepthStops(tree: seq<Command>, words: seq<string>, i: nat)
    requires i <= |words|
    ensures Depth(tree, words, i) < |words| ==> !Names(tree, words, Depth(tree, words, i) + 1)
    decreases |words| - i
  {
    if i < |words| && Names(tree, words, i + 1) {
      assert Depth(tree, words, i) == Depth(tree, words, i + 1);
      DepthStops(tree, words, i + 1);
    } else {
      assert Depth(tree, words, i) == i;
    }
  }

  /**
   * The longest match names the command of `words[..d]` joined with single
   * spaces, for the largest d such that every shorter join also names a
   * command; it is None exactly when there are no words or the first word
   * names no command.
   */
  lemma {:induction false} LongestMatchSpec(tree: seq<Command>, words: seq<string>)
    ensures var d := Depth(tree, words, 0);
      && (forall j :: 1 <= j <= d ==> Names(tree, words, j))
      && (d < |words| ==> !Names(tree, words, d + 1))
      && LongestMatch(tree, words) == (if d == 0 then None else FindCommand(tree, Join(words[..d])))
    ensures LongestMatch(tree, words).None? <==> |words| == 0 || FindCommand(tree, words[0]).None?
  {
    var d := Depth(tree, words, 0);
    forall j | 1 <= j <= d
      ensures Names(tree, words, j)
    {
      DepthRun(tree, words, 0, j);
    }
    DepthStops(tree, words, 0);
    if d > 0 {
      assert Names(tree, words, d);
    }
    if |words| > 0 {
      JoinOne(words);
      assert Names(tree, words, 1) <==> FindCommand(tree, words[0]).Some?;
    }
  }

  // ---------------------------------------------------------------------
  // Completion
  // ---------------------------------------------------------------------

  /** The word count a completion must have: one more when the line is empty or ends in white space. */
  function TargetWordCount(line: string, argc: nat): nat
  {
    if |line| == 0 || IsSpace(line[|line| - 1]) then argc + 1 else argc
  }

  /** `c` completes `line`: it has `words` words and the line begins its name, ignoring case. */
  predicate IsCompletion(c: Command, words: nat, line: string)
  {
    CountWords(c.name) == words && NoCaseStr(c.name, line) == Some(0)
  }

  /** The name the completion scan starts after: "" when there is no command. */
  function StartName(cmd: Option<Command>): string
  {
    match cmd
    case None => ""
    case Some(c) => c.name
  }

  /** The command has an action, a builtin or a view. */
  predicate DoesSomething(c: Command)
  {
    c.action.Some? || c.builtin.Some? || c.view.Some?
  }

  /** No command after `start` in tree order completes the line. */
  predicate NoCompletionAfter(tree: seq<Command>, start: string, words: nat, line: string)
  {
    forall j :: 0 <= j < |tree| && NoCaseLess(start, tree[j].name) ==> !IsCompletion(tree[j], words, line)
  }

  /** Position `j` holds the first command after `start` in tree order that completes the line. */
  predicate FirstCompletionAt(tree: seq<Command>, start: string, words: nat, line: string, j: int)
  {
    && 0 <= j < |tree|
    && NoCaseLess(start, tree[j].name)
    && IsCompletion(tree[j], words, line)
    && forall i :: 0 <= i < j && NoCaseLess(start, tree[i].name) ==> !IsCompletion(tree[i], words, line)
  }

  /** A scan that passes over one more command that does not complete the line. */
  lemma ScanStep(tree: seq<Command>, start: nat, words: nat, line: string, j: nat)
    requires start <= j < |tree|
    requires forall i :: start <= i < j ==> !IsCompletion(tree[i], words, line)
    requires !IsCompletion(tree[j], words, line)
    ensures forall i :: start <= i < j + 1 ==> !IsCompletion(tree[i], words, line)
  {
  }

  /**
   * A scan from the successor of `start` that passed over positions up to
   * `j` without a completion has found the first completion when it stops
   * at one, and has shown there is none when it ran off the end.
   */
  lemma {:induction false} ScanConcludes(tree: seq<Command>, start: string, words: nat, line: string, j: nat)
    requires Sorted(tree)
    requires FindNextFrom(tree, start, 0) <= j <= |tree|
    requires forall i :: FindNextFrom(tree, start, 0) <= i < j ==> !IsCompletion(tree[i], words, line)
    ensures j == |tree| ==> NoCompletionAfter(tree, start, words, line)
    ensures j < |tree| && IsCompletion(tree[j], words, line) ==> FirstCompletionAt(tree, start, words, line, j)
  {
    SuccessorIsStrict(tree, start);
  }

  class View {
    var name: Option<string>
    var prompt: Option<string>
    var tree: seq<Command>

    ghost predicate Valid()
      reads this
    {
      Sorted(tree)
    }

    /** clish_view_new / clish_view_init: a view with no commands. */
    constructor (viewName: string, viewPrompt: Option<string>)
      ensures Valid()
      ensures name == Some(viewName) && prompt == viewPrompt && tree == []
    {
      name := Dup(Some(viewName));
      prompt := None;
      tree := [];
      new;
      SetPrompt(viewPrompt);
    }

    /** clish_view__set_prompt: only a view without a prompt may be given one. */
    method SetPrompt(p: Option<string>)
      requires prompt.None?
      modifies this`prompt
      ensures prompt == p
    {
      prompt := Dup(p);
    }

    /**
     * clish_view_new_command: builds the command; one with help text is
     * inserted into the tree, and a duplicate name (ignoring case) makes the
     * command be discarded and None be returned. The startup command (no
     * help text) is returned without being inserted.
     */
    method NewCommand(cmdName: string, help: Option<string>) returns (cmd: Option<Command>)
      requires Valid()
      modifies this`tree
      ensures Valid()
      ensures help.None? ==> cmd == Some(NewCommandRecord(cmdName, help)) && tree == old(tree)
      ensures help.Some? && HasName(old(tree), cmdName) ==> cmd.None? && tree == old(tree)
      ensures help.Some? && !HasName(old(tree), cmdName) ==>
        cmd == Some(NewCommandRecord(cmdName, help)) &&
        multiset(tree) == multiset(old(tree)) + multiset{NewCommandRecord(cmdName, help)}
    {
      cmd := Some(NewCommandRecord(cmdName, help));
      if help.Some? {
        match Insert(tree, cmd.value)
        case None =>
          cmd := None;
        case Some(t) =>
          tree := t;
      }
    }

    /**
     * clish_view_resolve_prefix: grows a buffer one word at a time (the
     * words joined with single spaces) and keeps the last command found,
     * stopping at the first join that names no command.
     */
    method ResolvePrefix(words: seq<string>) returns (result: Option<Command>)
      ensures result == LongestMatch(tree, words)
    {
      result := None;
      var buffer: Option<string> := None;
      var i := 0;
      while i < |words|
        invariant 0 <= i <= |words|
        invariant Depth(tree, words, i) == Depth(tree, words, 0)
        invariant buffer.GetOr("") == BufferBefore(words, i)
        invariant result == Found(tree, words, i)
      {
        buffer := Cat(buffer, words[i], true);
        BufferThrough(words, i);
        var cmd := FindCommand(tree, buffer.value);
        ResolveStep(tree, words, i, cmd);
        if cmd.None? {
          break;
        }
        result := cmd;
        buffer := Cat(buffer, " ", true);
        i := i + 1;
      }
    }

    /**
     * clish_view_resolve_command: the prefix match, unless it has no action,
     * no builtin and no view, in which case nothing is resolved.
     */
    method ResolveCommand(words: seq<string>) returns (result: Option<Command>)
      ensures var m := LongestMatch(tree, words);
        result == if m.Some? && DoesSomething(m.value) then m else None
    {
      result := ResolvePrefix(words);
      if result.Some? {
        if result.value.action.None? && result.value.builtin.None? && result.value.view.None? {
          result := None;
        }
      }
    }

    /**
     * clish_view_find_next_completion: walks the tree from the command after
     * `cmd` (from the start when `cmd` is None) and answers the first command
     * with the target word count whose name the line begins, ignoring case.
     * `lineArgs` are the words of `line`.
     */
    method FindNextCompletion(cmd: Option<Command>, line: string, lineArgs: seq<string>) returns (r: Option<Command>)
      requires Valid()
      ensures r.None? ==> NoCompletionAfter(tree, StartName(cmd), TargetWordCount(line, |lineArgs|), line)
      ensures r.Some? ==> exists j :: FirstCompletionAt(tree, StartName(cmd), TargetWordCount(line, |lineArgs|), line, j) && tree[j] == r.value
    {
      var words := |lineArgs|;
      if |line| == 0 || IsSpace(line[|line| - 1]) {
        words := words + 1;
      }
      var name := StartName(cmd);
      ghost var start := FindNextFrom(tree, name, 0);
      ghost var j := start;
      r := FindNext(tree, name);
      while r.Some?
        invariant start <= j <= |tree|
        invariant r == if j < |tree| then Some(tree[j]) else None
        invariant forall i :: start <= i < j ==> !IsCompletion(tree[i], words, line)
        decreases |tree| - j
      {
        name := r.value.name;
        if CountWords(name) == words && NoCaseStr(name, line) == Some(0) {
          break;
        }
        assert !IsCompletion(tree[j], words, line);
        ScanStep(tree, start, words, line, j);
        NextOfMember(tree, j);
        r := FindNext(tree, name);
        j := j + 1;
      }
      ScanConcludes(tree, StartName(cmd), words, line, j);
    }

    /**
     * clish_view_fini: removes and releases the first command until the tree
     * is empty (so the commands go in tree order), then clears the name and
     * the prompt. `deleted` lists the released commands in that order.
     */
    method Fini() returns (deleted: seq<Command>)
      modifies this
      ensures deleted == old(tree)
      ensures tree == [] && name.None? && prompt.None?
      ensures Valid()
    {
      deleted := [];
      var cmd := First(tree);
      while cmd.Some?
        invariant old(tree) == deleted + tree
        invariant cmd == First(tree)
        decreases |tree|
      {
        tree := Remove(tree, cmd.value);
        deleted := deleted + [cmd.value];
        cmd := First(tree);
      }
      name := None;
      prompt := None;
    }
  }

  /** clish_view_bt_compare: `strcmp` of the view's name with the key. */
  function BtCompare(v: View, key: string): (r: int)
    reads v
    requires v.name.Some?
    ensures r == 0 <==> v.name.value == key
    ensures r < 0 <==> LexLess(v.name.value, key)
    ensures r > 0 <==> LexLess(key, v.name.value)
  {
    StrCmp(v.name.value, key)
  }

  /** clish_view_bt_getkey: the key of a view is a verbatim copy of its name. */
  function BtGetKey(v: View): string
    reads v
    requires v.name.Some?
  {
    v.name.value[..]
  }

  /** A view compares equal to its own key, and below exactly the keys its name sorts before. */
  lemma BtGetKeyMatches(v: View, key: string)
    requires v.name.Some?
    ensures BtCompare(v, BtGetKey(v)) == 0
    ensures BtCompare(v, key) < 0 <==> LexLess(BtGetKey(v), key)
  {
  }
}
