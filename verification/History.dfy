/**
 * Back and forward in the Linux workspace (internal/desktop/linux_master_rail.go, with the result handler of
 * internal/desktop/gui_linux.go): two stacks, and a navigation that only takes effect when its listing arrives.
 */
module History {

  const LIMIT: nat := 64

  datatype Entry = Entry(remote: bool, path: string)

  /** `strings.TrimSpace`, `cleanRemote` and `filepath.Clean`. */
  datatype Rules = Rules(trim: string -> string, cleanRemote: string -> string, cleanLocal: string -> string)

  /** `normalizeLinuxWorkspaceHistoryEntry` */
  function Normalize(rules: Rules, e: Entry): Entry
  {
    var p := rules.trim(e.path);
    if e.remote then Entry(true, if p == "" then "/" else rules.cleanRemote(p))
    else Entry(false, if p == "" then "" else rules.cleanLocal(p))
  }

  /**
   * An entry in normal form. Normalising does not always give one: cleaning `./ x` uncovers a blank that trimming
   * removes.
   */
  predicate Stable(rules: Rules, e: Entry)
  {
    Normalize(rules, e) == e
  }

  /** A normal form is of the same pane; a blank remote path stands for the root, a blank local one for no path. */
  lemma NormalizeMeans(rules: Rules, path: string)
    ensures rules.trim(path) == "" ==>
              Normalize(rules, Entry(true, path)) == Entry(true, "/") &&
              Normalize(rules, Entry(false, path)) == Entry(false, "")
    ensures rules.trim(path) != "" ==>
              Normalize(rules, Entry(true, path)) == Entry(true, rules.cleanRemote(rules.trim(path))) &&
              Normalize(rules, Entry(false, path)) == Entry(false, rules.cleanLocal(rules.trim(path)))
  {
  }

  /** What a stack keeps of a path: completing a navigation normalises it, and appending it does so again. */
  function Filed(rules: Rules, e: Entry): Entry
  {
    Normalize(rules, Normalize(rules, e))
  }

  /** `sameLinuxWorkspaceHistoryEntry` */
  predicate Same(rules: Rules, a: Entry, b: Entry)
  {
    Normalize(rules, a) == Normalize(rules, b)
  }

  // ----- Stacks -----

  /** A stack as it must always be: short, normalised, without empty paths or equal neighbours. */
  predicate Good(rules: Rules, stack: seq<Entry>)
  {
    |stack| <= 64 &&
    (forall i :: 0 <= i < |stack| ==> stack[i].path != "" && Stable(rules, stack[i])) &&
    forall i :: 0 < i < |stack| ==> stack[i - 1] != stack[i]
  }

  /** `appendLinuxWorkspaceHistory` */
  function Append(rules: Rules, stack: seq<Entry>, e: Entry): seq<Entry>
  {
    var n := Normalize(rules, e);
    if n.path == "" then stack
    else if stack != [] && Same(rules, stack[|stack| - 1], n) then stack
    else
      var grown := stack + [n];
      if |grown| > LIMIT then grown[|grown| - LIMIT..] else grown
  }

  /** Appending changes nothing: there is no path, or it compares equal to the last one. */
  predicate Skips(rules: Rules, stack: seq<Entry>, e: Entry)
  {
    Normalize(rules, e).path == "" || (stack != [] && Same(rules, stack[|stack| - 1], Normalize(rules, e)))
  }

  /** A stack stays as it must be exactly when the entry is skipped or its normal form is stable. */
  lemma AppendIsGood(rules: Rules, stack: seq<Entry>, e: Entry)
    requires Good(rules, stack)
    ensures Good(rules, Append(rules, stack, e)) <==> Skips(rules, stack, e) || Stable(rules, Normalize(rules, e))
    ensures Normalize(rules, e).path != "" && Stable(rules, Normalize(rules, e)) ==>
              Append(rules, stack, e) != [] &&
              Append(rules, stack, e)[|Append(rules, stack, e)| - 1] == Normalize(rules, e)
  {
    var after := Append(rules, stack, e);
    if !Skips(rules, stack, e) {
      assert after[|after| - 1] == Normalize(rules, e);
    }
  }

  /** Taking a target off the stack it came from. */
  function PopIfSame(rules: Rules, stack: seq<Entry>, e: Entry): seq<Entry>
  {
    if stack != [] && Same(rules, stack[|stack| - 1], e) then stack[..|stack| - 1] else stack
  }

  lemma PopIsGood(rules: Rules, stack: seq<Entry>, e: Entry)
    requires Good(rules, stack)
    ensures Good(rules, PopIfSame(rules, stack, e))
  {
  }

  // ----- The state -----

  /** The history fields of `linuxDesktop`. */
  datatype State = State(
    back: seq<Entry>, forward: seq<Entry>, replayActive: bool, replayBack: bool, replayTarget: Entry,
    local: string, remote: string, connected: bool, busy: bool, lastPaneRemote: bool)
  {
    function Current(pane: bool): Entry { Entry(pane, if pane then remote else local) }

    function Stack(isBack: bool): seq<Entry> { if isBack then back else forward }
  }

  predicate GoodState(rules: Rules, s: State)
  {
    Good(rules, s.back) && Good(rules, s.forward)
  }

  /** `linuxHistoryCan` */
  predicate Can(s: State, isBack: bool)
  {
    !s.busy && s.Stack(isBack) != [] && (!s.Stack(isBack)[|s.Stack(isBack)| - 1].remote || s.connected)
  }

  /** What an arriving listing means for the stacks: nothing, a completed step, or a new navigation. */
  datatype Move = Still | Step(isBack: bool) | Onward

  function MoveOf(rules: Rules, s: State, current: Entry, target: Entry): Move
  {
    if Same(rules, current, target) then Still
    else if s.replayActive && Same(rules, s.replayTarget, target) then Step(s.replayBack)
    else Onward
  }

  function NextBack(rules: Rules, back: seq<Entry>, move: Move, current: Entry, target: Entry): seq<Entry>
  {
    match move
    case Still => back
    case Step(isBack) => if isBack then PopIfSame(rules, back, target) else Append(rules, back, current)
    case Onward => Append(rules, back, current)
  }

  function NextForward(rules: Rules, forward: seq<Entry>, move: Move, current: Entry, target: Entry): seq<Entry>
  {
    match move
    case Still => forward
    case Step(isBack) => if isBack then Append(rules, forward, current) else PopIfSame(rules, forward, target)
    case Onward => []
  }

  /** What `completeLinuxWorkspaceNavigation` does to the state. */
  function Completed(rules: Rules, s: State, pane: bool, next: string): State
  {
    var current, target := Normalize(rules, s.Current(pane)), Normalize(rules, Entry(pane, next));
    var move := MoveOf(rules, s, current, target);
    s.(back := NextBack(rules, s.back, move, current, target),
       forward := NextForward(rules, s.forward, move, current, target),
       replayActive := s.replayActive && !Same(rules, s.replayTarget, target),
       lastPaneRemote := if move.Still? then s.lastPaneRemote else pane)
  }

  /**
   * `filed` was put on a stack: not at all without a path or onto an equal entry, and beyond 64 entries the oldest is
   * lost.
   */
  predicate Pushed(rules: Rules, before: seq<Entry>, filed: Entry, after: seq<Entry>)
  {
    if filed.path == "" || (before != [] && Normalize(rules, before[|before| - 1]) == Normalize(rules, filed)) then
      after == before
    else after == (if |before| < 64 then before else before[|before| - 63..]) + [filed]
  }

  /** The last entry was taken off a stack if it is filed as `filed`. */
  predicate Popped(rules: Rules, before: seq<Entry>, filed: Entry, after: seq<Entry>)
  {
    if before != [] && Normalize(rules, before[|before| - 1]) == filed then after + [before[|before| - 1]] == before
    else after == before
  }

  /**
   * A completed navigation, in full. To the same place it changes no stack. A new one files the place it leaves under
   * back and ends forward. The step that was asked for takes its target off the stack it came from and files the place
   * it leaves on the other one.
   */
  ghost predicate Completes(rules: Rules, s: State, pane: bool, next: string, t: State)
  {
    var from, to := Filed(rules, s.Current(pane)), Filed(rules, Entry(pane, next));
    var replayed := s.replayActive && Normalize(rules, s.replayTarget) == to;
    (from == to ==> t.back == s.back && t.forward == s.forward && t.lastPaneRemote == s.lastPaneRemote) &&
    (from != to ==> t.lastPaneRemote == pane) &&
    (from != to && !replayed ==> t.forward == [] && Pushed(rules, s.back, from, t.back)) &&
    (from != to && replayed && s.replayBack ==>
       Popped(rules, s.back, to, t.back) && Pushed(rules, s.forward, from, t.forward)) &&
    (from != to && replayed && !s.replayBack ==>
       Popped(rules, s.forward, to, t.forward) && Pushed(rules, s.back, from, t.back)) &&
    (t.replayActive <==> s.replayActive && !replayed) &&
    t.replayBack == s.replayBack && t.replayTarget == s.replayTarget && t.connected == s.connected
  }

  lemma AppendPushes(rules: Rules, stack: seq<Entry>, e: Entry)
    requires |stack| <= 64
    ensures Pushed(rules, stack, Normalize(rules, e), Append(rules, stack, e))
  {
  }

  lemma PopIsPopped(rules: Rules, stack: seq<Entry>, e: Entry)
    ensures Popped(rules, stack, Normalize(rules, e), PopIfSame(rules, stack, e))
  {
  }

  lemma CompletedCompletes(rules: Rules, s: State, pane: bool, next: string)
    requires |s.back| <= 64 && |s.forward| <= 64
    ensures Completes(rules, s, pane, next, Completed(rules, s, pane, next))
  {
    var current, target := Normalize(rules, s.Current(pane)), Normalize(rules, Entry(pane, next));
    AppendPushes(rules, s.back, current);
    AppendPushes(rules, s.forward, current);
    PopIsPopped(rules, s.back, target);
    PopIsPopped(rules, s.forward, target);
  }

  /** What the result handler does with a listing that arrived. */
  function Arrived(rules: Rules, s: State, pane: bool, base: string): State
  {
    var done := Completed(rules, s.(busy := false), pane, base);
    if pane then done.(remote := base) else done.(local := base)
  }

  /** What asking for a step back or forward does before its listing arrives. */
  function Asked(s: State, isBack: bool): State
    requires Can(s, isBack)
  {
    s.(replayActive := true, replayBack := isBack, replayTarget := s.Stack(isBack)[|s.Stack(isBack)| - 1], busy := true)
  }

  /** The stack that receives the path a navigation leaves. */
  function Receiver(s: State, move: Move): seq<Entry>
  {
    if move == Step(true) then s.forward else s.back
  }

  /** Nothing moves, or the path that is left is skipped or stable as it is filed. */
  predicate KeepsGood(rules: Rules, s: State, pane: bool, next: string)
  {
    var current, target := Normalize(rules, s.Current(pane)), Normalize(rules, Entry(pane, next));
    var move := MoveOf(rules, s, current, target);
    move.Still? || Skips(rules, Receiver(s, move), current) || Stable(rules, Filed(rules, s.Current(pane)))
  }

  /** The exact condition under which a completed navigation keeps both stacks as they must be. */
  lemma CompletedIsGood(rules: Rules, s: State, pane: bool, next: string)
    requires GoodState(rules, s)
    ensures GoodState(rules, Completed(rules, s, pane, next)) <==> KeepsGood(rules, s, pane, next)
  {
    var current, target := Normalize(rules, s.Current(pane)), Normalize(rules, Entry(pane, next));
    AppendIsGood(rules, s.back, current);
    AppendIsGood(rules, s.forward, current);
    PopIsGood(rules, s.back, target);
    PopIsGood(rules, s.forward, target);
    assert Good(rules, []);
  }

  lemma ArrivedIsGood(rules: Rules, s: State, pane: bool, base: string)
    requires GoodState(rules, s)
    ensures GoodState(rules, Arrived(rules, s, pane, base)) <==> KeepsGood(rules, s, pane, base)
  {
    CompletedIsGood(rules, s.(busy := false), pane, base);
  }

  lemma ArrivedCompletes(rules: Rules, s: State, pane: bool, base: string)
    requires |s.back| <= 64 && |s.forward| <= 64
    ensures Completes(rules, s, pane, base, Arrived(rules, s, pane, base))
  {
    var idle := s.(busy := false);
    CompletedCompletes(rules, idle, pane, base);
    assert idle.Current(pane) == s.Current(pane);
  }

  /** From good stacks a listing completes the navigation, and keeps the stacks good exactly when it should. */
  ghost predicate ArrivesWell(rules: Rules, s: State, pane: bool, base: string)
  {
    GoodState(rules, s) ==>
      Completes(rules, s, pane, base, Arrived(rules, s, pane, base)) &&
      (GoodState(rules, Arrived(rules, s, pane, base)) <==> KeepsGood(rules, s, pane, base))
  }

  lemma ListingArrives(rules: Rules, s: State, pane: bool, base: string)
    ensures ArrivesWell(rules, s, pane, base)
  {
    if GoodState(rules, s) {
      ArrivedIsGood(rules, s, pane, base);
      ArrivedCompletes(rules, s, pane, base);
    }
  }

  /** Both current paths are stable as they would be filed. */
  predicate Steady(rules: Rules, s: State)
  {
    GoodState(rules, s) && Stable(rules, Filed(rules, s.Current(true))) && Stable(rules, Filed(rules, s.Current(false)))
  }

  /** As long as listings arrive for paths that are stable as filed, both stacks stay as they must be. */
  lemma StaysSteady(rules: Rules, s: State, pane: bool, base: string)
    requires Steady(rules, s)
    ensures Steady(rules, Arrived(rules, s, pane, base)) <==> Stable(rules, Filed(rules, Entry(pane, base)))
  {
    ArrivedIsGood(rules, s, pane, base);
    assert Arrived(rules, s, pane, base).Current(pane) == Entry(pane, base);
    assert Arrived(rules, s, pane, base).Current(!pane) == s.Current(!pane);
  }

  /** The part of the desktop that the history functions work on. */
  class Desktop {
    const rules: Rules
    var back: seq<Entry>
    var forward: seq<Entry>
    var replayActive: bool
    var replayBack: bool
    var replayTarget: Entry
    var localCurrent: string
    var remoteCurrent: string
    var connected: bool
    var busy: bool
    var lastPaneRemote: bool

    constructor (rules: Rules, localCurrent: string, remoteCurrent: string)
      ensures this.rules == rules && Valid() && Now().back == Now().forward == []
    {
      this.rules, this.localCurrent, this.remoteCurrent := rules, localCurrent, remoteCurrent;
      back, forward, replayActive, replayBack, replayTarget := [], [], false, false, Entry(false, "");
      connected, busy, lastPaneRemote := false, false, false;
    }

    function Now(): State
      reads this
    {
      State(back, forward, replayActive, replayBack, replayTarget, localCurrent, remoteCurrent, connected, busy,
            lastPaneRemote)
    }

    ghost predicate Valid()
      reads this
    {
      GoodState(rules, Now())
    }

    /** A completed step: the target leaves its stack, the current entry goes to the other one. */
    method StepStacks(current: Entry, target: Entry)
      modifies this`back, this`forward
      ensures back == NextBack(rules, old(back), Step(replayBack), current, target)
      ensures forward == NextForward(rules, old(forward), Step(replayBack), current, target)
    {
      if replayBack {
        if back != [] && Same(rules, back[|back| - 1], target) { back := back[..|back| - 1]; }
        forward := Append(rules, forward, current);
      } else {
        if forward != [] && Same(rules, forward[|forward| - 1], target) { forward := forward[..|forward| - 1]; }
        back := Append(rules, back, current);
      }
    }

    /** `completeLinuxWorkspaceNavigation`; `CompletedIsGood` says when this keeps the stacks good. */
    method Complete(pane: bool, next: string)
      modifies this`back, this`forward, this`replayActive, this`lastPaneRemote
      ensures Now() == Completed(rules, old(Now()), pane, next)
    {
      var current := Normalize(rules, Entry(pane, if pane then remoteCurrent else localCurrent));
      var target := Normalize(rules, Entry(pane, next));
      ghost var move := MoveOf(rules, Now(), current, target);
      var replayed := replayActive && Same(rules, replayTarget, target);
      if Same(rules, current, target) {
        assert move == Still;
        if replayed { replayActive := false; }
        return;
      }
      if replayed {
        assert move == Step(replayBack);
        StepStacks(current, target);
        replayActive := false;
      } else {
        assert move == Onward;
        back := Append(rules, back, current);
        forward := [];
      }
      lastPaneRemote := pane;
    }

    /** `navigateLinuxWorkspaceHistory`, up to the request for a listing of the target. */
    method Navigate(isBack: bool) returns (asked: bool)
      modifies this
      ensures (old(Valid()) ==> Valid()) && asked == Can(old(Now()), isBack)
      ensures Now() == if asked then Asked(old(Now()), isBack) else old(Now())
      ensures var stack := if isBack then old(back) else old(forward);
              (asked <==> !old(busy) && |stack| > 0 && (stack[|stack| - 1].remote ==> old(connected))) &&
              (asked ==> busy && replayActive && replayBack == isBack && replayTarget == stack[|stack| - 1]) &&
              back == old(back) && forward == old(forward)
    {
      if !Can(Now(), isBack) { return false; }
      var history := if isBack then back else forward;
      replayActive, replayBack, replayTarget := true, isBack, history[|history| - 1];
      busy := true;
      return true;
    }

    /** Any other request for a listing. */
    method Refresh()
      modifies this`busy
      ensures (old(Valid()) ==> Valid()) && Now() == old(Now()).(busy := true)
    {
      busy := true;
    }

    /** A listing arrived (`handleResult`). */
    method HandleListing(pane: bool, base: string)
      modifies this
      ensures Now() == Arrived(rules, old(Now()), pane, base)
      ensures !busy && remoteCurrent == (if pane then base else old(remoteCurrent)) &&
              localCurrent == if pane then old(localCurrent) else base
      ensures ArrivesWell(rules, old(Now()), pane, base)
    {
      ghost var s := Now();
      ListingArrives(rules, s, pane, base);
      busy := false;
      Complete(pane, base);
      if pane { remoteCurrent := base; } else { localCurrent := base; }
    }

    /** An action failed (`handleResult`, `failLinuxWorkspaceReplay`): neither stack changes. */
    method HandleError()
      modifies this`busy, this`replayActive
      ensures (old(Valid()) ==> Valid()) && Now() == old(Now()).(busy := false, replayActive := false)
    {
      busy := false;
      replayActive := false;
    }

    method HandleConnected(sftp: bool)
      modifies this`busy, this`connected, this`remoteCurrent
      ensures old(Valid()) ==> Valid()
      ensures Now() == old(Now()).(busy := false, connected := true,
                                   remote := if sftp && old(remoteCurrent) == "/" then "." else old(remoteCurrent))
    {
      busy := false;
      connected := true;
      if sftp && remoteCurrent == "/" { remoteCurrent := "."; }
    }

    method HandleDisconnected()
      modifies this
      ensures Valid()
      ensures Now() == old(Now()).(busy := false, connected := false, back := [], forward := [], replayActive := false,
          lastPaneRemote := false)
    {
      busy, connected := false, false;
      back, forward, replayActive, lastPaneRemote := [], [], false, false;
    }
  }

  /** Trimming and cleaning as far as blanks and leading `./` go, on which they agree with the program's. */
  function TrimBlanks(p: string): string
  {
    if p != "" && p[0] == ' ' then TrimBlanks(p[1..]) else p
  }

  function CleanDots(p: string): string
  {
    if 2 < |p| && p[0] == '.' && p[1] == '/' then CleanDots(p[2..]) else p
  }

  /** The exception is real: leaving `./ ./ x` puts ` x` on the stack, which is not in normal form. */
  lemma UnstableHappens()
    ensures var rules := Rules(TrimBlanks, CleanDots, CleanDots);
            var from := Normalize(rules, Entry(false, "./ ./ x"));
            Append(rules, [], from) == [Entry(false, " x")] && !Good(rules, [Entry(false, " x")])
  {
    var rules := Rules(TrimBlanks, CleanDots, CleanDots);
    var a, b, c := "./ ./ x", " ./ x", " x";
    assert a[2..] == b && b[1..] == "./ x" && "./ x"[2..] == c && c[1..] == "x";
    assert TrimBlanks(a) == a && CleanDots(a) == CleanDots(b) == b;
    assert TrimBlanks(b) == TrimBlanks("./ x") == "./ x" && CleanDots("./ x") == CleanDots(c) == c;
    assert TrimBlanks(c) == TrimBlanks("x") == "x" && CleanDots("x") == "x";
    assert Normalize(rules, Entry(false, a)) == Entry(false, b);
    assert Normalize(rules, Entry(false, b)) == Entry(false, c);
    assert Normalize(rules, Entry(false, c)) == Entry(false, "x");
    var stack := [Entry(false, c)];
    assert |c| == 2 && |"x"| == 1 && !Stable(rules, stack[0]);
  }

  // ----- Within one pane -----

  /** A stack of one pane that does not begin with the current entry. */
  predicate PaneStack(rules: Rules, stack: seq<Entry>, pane: bool, current: Entry)
  {
    Good(rules, stack) && (forall i :: 0 <= i < |stack| ==> stack[i].remote == pane) &&
    (stack != [] ==> stack[|stack| - 1] != current)
  }

  /** The entry is stable, of this pane, and not empty. */
  predicate PaneEntry(rules: Rules, e: Entry, pane: bool)
  {
    e.remote == pane && e.path != "" && Stable(rules, e)
  }

  /** A run that has only navigated in this pane, and only between paths that are stable as they are filed. */
  predicate OnePane(rules: Rules, s: State, pane: bool)
  {
    var current := Filed(rules, s.Current(pane));
    PaneEntry(rules, current, pane) &&
    PaneStack(rules, s.back, pane, current) && PaneStack(rules, s.forward, pane, current)
  }

  lemma AppendOnPane(rules: Rules, stack: seq<Entry>, pane: bool, e: Entry, current: Entry, target: Entry)
    requires Normalize(rules, e) == current && PaneStack(rules, stack, pane, current) && PaneEntry(rules, current, pane)
    requires current != target
    ensures PaneStack(rules, Append(rules, stack, e), pane, target)
  {
    AppendIsGood(rules, stack, e);
  }

  lemma PopOnPane(rules: Rules, stack: seq<Entry>, pane: bool, e: Entry, current: Entry, target: Entry)
    requires PaneStack(rules, stack, pane, current) && Normalize(rules, e) == target
    ensures PaneStack(rules, PopIfSame(rules, stack, e), pane, target)
  {
    PopIsGood(rules, stack, e);
    assert stack != [] ==> Stable(rules, stack[|stack| - 1]);
  }

  /** From `from`, filed as `current`, to `to`, filed as `target`. */
  lemma NextStacks(rules: Rules, s: State, pane: bool, move: Move, from: Entry, to: Entry, current: Entry,
                   target: Entry)
    requires Normalize(rules, from) == current && Normalize(rules, to) == target && (move.Still? <==> current == target)
    requires PaneEntry(rules, current, pane) && PaneEntry(rules, target, pane)
    requires PaneStack(rules, s.back, pane, current) && PaneStack(rules, s.forward, pane, current)
    ensures PaneStack(rules, NextBack(rules, s.back, move, from, to), pane, target)
    ensures PaneStack(rules, NextForward(rules, s.forward, move, from, to), pane, target)
  {
    if current != target {
      AppendOnPane(rules, s.back, pane, from, current, target);
      AppendOnPane(rules, s.forward, pane, from, current, target);
      PopOnPane(rules, s.back, pane, to, current, target);
      PopOnPane(rules, s.forward, pane, to, current, target);
    }
  }

  /** Whatever listing arrives, the run stays on one pane exactly when the new path is stable as filed and not empty. */
  lemma StaysOnePane(rules: Rules, s: State, pane: bool, base: string)
    requires OnePane(rules, s, pane)
    ensures OnePane(rules, Arrived(rules, s, pane, base), pane) <==>
            PaneEntry(rules, Filed(rules, Entry(pane, base)), pane)
  {
    var from, to := Normalize(rules, s.Current(pane)), Normalize(rules, Entry(pane, base));
    assert Arrived(rules, s, pane, base).Current(pane) == Entry(pane, base);
    if PaneEntry(rules, Filed(rules, Entry(pane, base)), pane) {
      NextStacks(rules, s, pane, MoveOf(rules, s, from, to), from, to, Normalize(rules, from), Normalize(rules, to));
    }
  }

  /** A step back or forward that was asked for and whose listing arrived. */
  function Replayed(rules: Rules, s: State, isBack: bool): State
    requires Can(s, isBack)
  {
    var target := s.Stack(isBack)[|s.Stack(isBack)| - 1];
    Arrived(rules, Asked(s, isBack), target.remote, target.path)
  }

  /** The current entry moved to the other stack, and the top of the stack became the current entry. */
  predicate Moves(rules: Rules, s: State, after: State, pane: bool, isBack: bool)
  {
    var stack := s.Stack(isBack);
    stack != [] && after.Current(pane) == stack[|stack| - 1] && after.Stack(isBack) == stack[..|stack| - 1] &&
    after.Stack(!isBack) == Append(rules, s.Stack(!isBack), Normalize(rules, s.Current(pane))) &&
    !after.busy && after.connected == s.connected
  }

  lemma ReplayedMoves(rules: Rules, s: State, pane: bool, isBack: bool)
    requires OnePane(rules, s, pane) && Can(s, isBack)
    ensures OnePane(rules, Replayed(rules, s, isBack), pane)
    ensures Moves(rules, s, Replayed(rules, s, isBack), pane, isBack)
  {
    var target := s.Stack(isBack)[|s.Stack(isBack)| - 1];
    assert Stable(rules, target) && target == Entry(pane, target.path);
    var asked := Asked(s, isBack);
    assert OnePane(rules, asked, pane);
    StaysOnePane(rules, asked, pane, target.path);
    AskedMoves(rules, s, pane, isBack);
  }

  lemma AskedMoves(rules: Rules, s: State, pane: bool, isBack: bool)
    requires OnePane(rules, s, pane) && Can(s, isBack)
    ensures Moves(rules, s, Replayed(rules, s, isBack), pane, isBack)
  {
    var target := s.Stack(isBack)[|s.Stack(isBack)| - 1];
    var from := Normalize(rules, s.Current(pane));
    assert Stable(rules, target) && target == Entry(pane, target.path);
    assert Normalize(rules, from) != target;
    var asked := Asked(s, isBack).(busy := false);
    assert MoveOf(rules, asked, from, target) == Step(isBack);
    assert PopIfSame(rules, s.Stack(isBack), target) == s.Stack(isBack)[..|s.Stack(isBack)| - 1];
  }

  /**
   * Within one pane, back and then forward ends at the path as it was filed. It restores the current path exactly when
   * its normal form is stable, the back stack always, and the forward stack exactly when that was not full.
   */
  lemma BackThenForward(rules: Rules, s: State, pane: bool)
    requires OnePane(rules, s, pane) && Can(s, true)
    ensures var away := Replayed(rules, s, true);
            Can(away, false) &&
            var home := Replayed(rules, away, false);
            home.back == s.back && home.Current(pane) == Filed(rules, s.Current(pane)) &&
            (Same(rules, home.Current(pane), s.Current(pane)) <==> Stable(rules, Normalize(rules, s.Current(pane)))) &&
            (home.forward == s.forward <==> |s.forward| < 64)
  {
    ReplayedMoves(rules, s, pane, true);
    var away := Replayed(rules, s, true);
    AppendedTop(rules, s.forward, pane, Normalize(rules, s.Current(pane)), Filed(rules, s.Current(pane)));
    ReplayedMoves(rules, away, pane, false);
    HomeAgain(rules, s, away, Replayed(rules, away, false), pane);
  }

  lemma HomeAgain(rules: Rules, s: State, away: State, home: State, pane: bool)
    requires OnePane(rules, s, pane) && Moves(rules, s, away, pane, true) && Moves(rules, away, home, pane, false)
    ensures home.back == s.back && home.Current(pane) == Filed(rules, s.Current(pane))
    ensures home.forward == s.forward <==> |s.forward| < LIMIT
  {
    AppendedTop(rules, s.forward, pane, Normalize(rules, s.Current(pane)), Filed(rules, s.Current(pane)));
    AppendsBack(rules, s.back);
  }

  lemma AppendsBack(rules: Rules, stack: seq<Entry>)
    requires Good(rules, stack) && stack != []
    ensures var n := |stack| - 1; Append(rules, stack[..n], Normalize(rules, stack[n])) == stack
  {
    var n := |stack| - 1;
    assert stack == stack[..n] + [stack[n]];
    assert Stable(rules, stack[n]);
    if n > 0 { assert Stable(rules, stack[n - 1]) && stack[n - 1] != stack[n]; }
  }

  lemma AppendedTop(rules: Rules, stack: seq<Entry>, pane: bool, e: Entry, current: Entry)
    requires Normalize(rules, e) == current && PaneStack(rules, stack, pane, current) && PaneEntry(rules, current, pane)
    ensures var after := Append(rules, stack, e);
            after != [] && after[|after| - 1] == current && (after[..|after| - 1] == stack <==> |stack| < LIMIT)
  {
    var after := Append(rules, stack, e);
    assert stack != [] ==> Stable(rules, stack[|stack| - 1]);
    if |stack| == LIMIT {
      assert |after[..|after| - 1]| == LIMIT - 1;
    }
  }
}
