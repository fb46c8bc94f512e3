/**
 * The message buffer of each query, written by the worker and emptied by readers.
 *
 * AppendMessage looks whether the buffer is empty before it takes the lock, so a reader may empty it
 * between that test and the append; the two are separate steps here.
 */
module NoticeBuffer {
  import opened Basics

  /** The message under way in AppendMessage, and what its emptiness test saw. */
  datatype Writing = Nothing | Tested(text: string, sawEmpty: bool)

  /** The current query, the buffers of all queries up to it, and where the worker is. */
  datatype State = State(current: int, message: seq<string>, writing: Writing)

  datatype Action =
    | NextQuery                 // the worker moves on to the next query
    | Test(text: string)        // AppendMessage is entered and tests for emptiness
    | Append                    // its locked append
    | CopyRow(text: string)     // a COPY row is appended under the lock
    | Take(index: int)          // GetMessagesAndClear

  const START := State(-1, [], Nothing)

  predicate WellFormed(s: State)
  {
    |s.message| == s.current + 1 && (s.writing.Tested? ==> s.current >= 0)
  }

  function Write(s: State, stored: string): (t: State)
    requires WellFormed(s) && s.current >= 0
    ensures WellFormed(t)
  {
    s.(message := s.message[s.current := s.message[s.current] + stored], writing := Nothing)
  }

  /** What the locked append adds to the buffer. */
  function Stored(w: Writing): string
    requires w.Tested?
  {
    if !w.sawEmpty then "\n" + w.text
    else if w.text != "\n" then w.text
    else ""
  }

  /** The query that a reader asks for: the current one for index -1. */
  function Asked(s: State, index: int): int
  {
    if index == -1 then s.current else index
  }

  /** What GetMessagesAndClear returns. */
  function Got(s: State, index: int): string
    requires WellFormed(s)
  {
    if 0 <= Asked(s, index) <= s.current then s.message[Asked(s, index)] else ""
  }

  /** Steps that are not possible where the threads stand leave the state alone. */
  function Step(s: State, a: Action): (t: State)
    requires WellFormed(s)
    ensures WellFormed(t)
  {
    match a
    case NextQuery =>
      if s.writing.Tested? then s else State(s.current + 1, s.message + [""], Nothing)
    case Test(text) =>
      if s.writing.Tested? || s.current < 0 then s
      else s.(writing := Tested(text, s.message[s.current] == ""))
    case Append =>
      if s.writing.Nothing? then s else Write(s, Stored(s.writing))
    case CopyRow(text) =>
      if s.writing.Tested? || s.current < 0 then s else Write(s, text)
    case Take(index) =>
      var i := Asked(s, index);
      if 0 <= i <= s.current then s.(message := s.message[i := ""]) else s
  }

  function Run(actions: seq<Action>): (t: State)
    ensures WellFormed(t)
    decreases |actions|
  {
    if actions == [] then START else Step(Run(actions[..|actions| - 1]), actions[|actions| - 1])
  }

  // ----- what was written and what was read, from the actions alone

  /** The current query, the message the worker has in hand, and all it has written, per query. */
  datatype Writer = Writer(current: int, inHand: Option<string>, written: seq<string>)

  ghost function Written(actions: seq<Action>): (w: Writer)
    ensures |w.written| == w.current + 1 && (w.inHand.Some? ==> w.current >= 0)
    decreases |actions|
  {
    if actions == [] then Writer(-1, None, [])
    else
      var w := Written(actions[..|actions| - 1]);
      match actions[|actions| - 1]
      case NextQuery => if w.inHand.None? then Writer(w.current + 1, None, w.written + [""]) else w
      case Test(text) => if w.inHand.None? && w.current >= 0 then w.(inHand := Some(text)) else w
      case Append =>
        if w.inHand.None? then w
        else w.(inHand := None, written := w.written[w.current := w.written[w.current] + w.inHand.value])
      case CopyRow(text) =>
        if w.inHand.Some? || w.current < 0 then w
        else w.(written := w.written[w.current := w.written[w.current] + text])
      case Take(_) => w
  }

  /** All that readers got of query i. */
  ghost function Taken(actions: seq<Action>, i: int): string
    decreases |actions|
  {
    if actions == [] then ""
    else
      var init, a := actions[..|actions| - 1], actions[|actions| - 1];
      Taken(init, i) + (if a.Take? && Asked(Run(init), a.index) == i then Got(Run(init), a.index) else "")
  }

  /** A text without its newline characters. */
  function Solid(s: string): string
  {
    if s == "" then "" else (if s[0] == '\n' then "" else [s[0]]) + Solid(s[1..])
  }

  lemma {:induction false} SolidConcat(a: string, b: string)
    ensures Solid(a + b) == Solid(a) + Solid(b)
  {
    if a == "" { assert a + b == b; }
    else {
      SolidConcat(a[1..], b);
      assert (a + b)[1..] == a[1..] + b && (a + b)[0] == a[0];
      var h := if a[0] == '\n' then "" else [a[0]];
      assert Solid(a + b) == h + Solid(a[1..] + b);
    }
  }

  lemma SolidStored(w: Writing)
    requires w.Tested?
    ensures Solid(Stored(w)) == Solid(w.text)
  {
    if !w.sawEmpty { SolidConcat("\n", w.text); }
  }

  /** The worker is where the actions say. */
  ghost predicate InStep(s: State, w: Writer)
  {
    && s.current == w.current
    && (if s.writing.Tested? then w.inHand == Some(s.writing.text) else w.inHand.None?)
  }

  /** What readers took of a query's messages, then what is still there, is what was written. */
  ghost predicate NothingLost(actions: seq<Action>)
  {
    var s, w := Run(actions), Written(actions);
    && InStep(s, w)
    && forall i {:trigger w.written[i]} :: 0 <= i <= s.current ==>
         Solid(Taken(actions, i) + s.message[i]) == Solid(w.written[i])
  }

  lemma WrittenOn(taken: string, message: string, stored: string, written: string, text: string)
    requires Solid(taken + message) == Solid(written) && Solid(stored) == Solid(text)
    ensures Solid(taken + (message + stored)) == Solid(written + text)
  {
    Regroup(taken, message, stored);
    SolidConcat(taken + message, stored);
    SolidConcat(written, text);
  }

  /** What is stored of a text is the text up to newlines. */
  lemma WriteLosesNothing(actions: seq<Action>, a: Action, text: string, stored: string)
    requires NothingLost(actions) && !a.Take? && Run(actions).current >= 0 && Solid(stored) == Solid(text)
    requires Run(actions + [a]) == Write(Run(actions), stored)
    requires var w := Written(actions);
             Written(actions + [a]) ==
             w.(inHand := None, written := w.written[w.current := w.written[w.current] + text])
    ensures NothingLost(actions + [a])
  {
    var s, w, more := Run(actions), Written(actions), actions + [a];
    assert more[..|actions|] == actions;
    forall i | 0 <= i <= s.current
      ensures Solid(Taken(more, i) + Run(more).message[i]) == Solid(Written(more).written[i])
    {
      assert Taken(more, i) == Taken(actions, i) + "" == Taken(actions, i);
      if i == s.current { WrittenOn(Taken(actions, i), s.message[i], stored, w.written[i], text); }
    }
  }

  lemma TakeLosesNothing(actions: seq<Action>, index: int)
    requires NothingLost(actions)
    ensures NothingLost(actions + [Take(index)])
  {
    var s, more := Run(actions), actions + [Take(index)];
    assert more[..|actions|] == actions;
    forall i | 0 <= i <= s.current
      ensures Solid(Taken(more, i) + Run(more).message[i]) == Solid(Written(more).written[i])
    {
      if Asked(s, index) == i {
        assert Taken(more, i) + Run(more).message[i] == Taken(actions, i) + s.message[i];
      } else {
        assert Taken(more, i) == Taken(actions, i) + "" == Taken(actions, i);
      }
    }
  }

  /** Steps that neither write nor read. */
  lemma MoveLosesNothing(actions: seq<Action>, a: Action)
    requires NothingLost(actions) && (a.NextQuery? || a.Test?)
    ensures NothingLost(actions + [a])
  {
    var s, more := Run(actions), actions + [a];
    assert more[..|actions|] == actions;
    assert forall i :: Taken(more, i) == Taken(actions, i) + "" == Taken(actions, i);
    if |Run(more).message| > |s.message| { TakenOfLater(actions, s.current + 1); assert Solid("" + "") == Solid(""); }
  }

  lemma {:induction false} CurrentGrows(actions: seq<Action>, a: Action)
    ensures Run(actions).current <= Run(actions + [a]).current
  {
    assert (actions + [a])[..|actions|] == actions;
  }

  /** Nothing is read of a query before it starts. */
  lemma {:induction false} TakenOfLater(actions: seq<Action>, i: int)
    requires Run(actions).current < i
    ensures Taken(actions, i) == ""
    decreases |actions|
  {
    if actions != [] {
      var init, a := actions[..|actions| - 1], actions[|actions| - 1];
      assert actions == init + [a];
      CurrentGrows(init, a);
      TakenOfLater(init, i);
    }
  }

  lemma StepLosesNothing(actions: seq<Action>, a: Action)
    requires NothingLost(actions)
    ensures NothingLost(actions + [a])
  {
    var s := Run(actions);
    assert (actions + [a])[..|actions|] == actions;
    match a
    case NextQuery => MoveLosesNothing(actions, a);
    case Test(text) => MoveLosesNothing(actions, a);
    case Append =>
      if s.writing.Tested? {
        SolidStored(s.writing);
        WriteLosesNothing(actions, a, s.writing.text, Stored(s.writing));
      } else {
        IdleLosesNothing(actions, a);
      }
    case CopyRow(text) =>
      if s.writing.Nothing? && s.current >= 0 { WriteLosesNothing(actions, a, text, text); }
      else { IdleLosesNothing(actions, a); }
    case Take(index) => TakeLosesNothing(actions, index);
  }

  lemma IdleLosesNothing(actions: seq<Action>, a: Action)
    requires NothingLost(actions) && !a.Take?
    requires Run(actions + [a]) == Run(actions) && Written(actions + [a]) == Written(actions)
    ensures NothingLost(actions + [a])
  {
    assert (actions + [a])[..|actions|] == actions;
    assert forall i :: Taken(actions + [a], i) == Taken(actions, i) + "" == Taken(actions, i);
  }

  /** For every interleaving of the worker with readers, and every query. */
  lemma {:induction false} RunLosesNothing(actions: seq<Action>)
    ensures NothingLost(actions)
    decreases |actions|
  {
    if actions != [] {
      var init, a := actions[..|actions| - 1], actions[|actions| - 1];
      RunLosesNothing(init);
      assert actions == init + [a];
      StepLosesNothing(init, a);
    }
  }

  /** A reader gets the whole buffer of the query it asks for and leaves that one empty, no other. */
  lemma TakeEmpties(s: State, index: int)
    requires WellFormed(s) && -1 <= index <= s.current && s.current >= 0
    ensures var i, t := if index == -1 then |s.message| - 1 else index, Step(s, Take(index));
            && Got(s, index) == s.message[i] && t.message[i] == "" && |t.message| == |s.message|
            && forall j :: 0 <= j < |s.message| && j != i ==> t.message[j] == s.message[j]
  {
  }

  /** Undisturbed by readers, a message after a non-empty buffer goes on a line of its own. */
  lemma UndisturbedAppend(s: State, text: string)
    requires WellFormed(s) && s.current >= 0 && s.writing.Nothing?
    ensures var t := Step(Step(s, Test(text)), Append);
            t.message[s.current] ==
              if s.message[s.current] != "" then s.message[s.current] + "\n" + text
              else if text == "\n" then "" else text
  {
    var before := s.message[s.current];
    assert before + ("\n" + text) == before + "\n" + text;
  }

  /** A reader that empties the buffer between the two steps leaves the separator in front of the message. */
  lemma ReaderBetweenSteps(s: State, text: string)
    requires WellFormed(s) && s.current >= 0 && s.writing.Nothing? && s.message[s.current] != ""
    ensures Step(Step(Step(s, Test(text)), Take(s.current)), Append).message[s.current] == "\n" + text
  {
    assert "" + ("\n" + text) == "\n" + text;
  }
}
