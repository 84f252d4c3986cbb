/** The `main` loop of main_start.py as a fold over input lines: each line
    is parsed, dispatched, and answered with exactly one output line, until
    an exit word stops the loop or a blank line crashes it. */
module Repl {
  import opened Outcomes
  import opened Text
  import opened OrderedMap
  import opened Commands

  /** Running: still reading; Exited: an exit word was seen; Crashed:
      `parse_input` raised on a line with no words, outside any handler. */
  datatype Status = Running | Exited | Crashed

  /** The store, everything printed so far (banner and prompts aside), and
      whether the loop is still reading. */
  datatype Session = Session(contacts: Contacts, outputs: seq<string>, status: Status)

  function Start(): (s: Session)
    ensures s.contacts.Valid() && s.status == Running && |s.outputs| == 0
  {
    Session(Empty(), [], Running)
  }

  /** One turn of the loop. */
  function Step(s: Session, line: string): (t: Session)
    requires s.contacts.Valid() && s.status == Running
    ensures t.contacts.Valid()
    ensures t.status == Crashed <==> AllSpace(line)
    ensures t.status == Crashed ==> t.contacts == s.contacts && t.outputs == s.outputs
    ensures t.status != Crashed ==>
      |t.outputs| == |s.outputs| + 1 && t.outputs[..|s.outputs|] == s.outputs
  {
    match ParseInput(line)
    case None => s.(status := Crashed)
    case Some(Parsed(command, args)) => Perform(s, Dispatch(command, args, s.contacts))
  }

  /** Prints the reply and keeps going, or says good bye and stops. */
  function Perform(s: Session, a: Action): (t: Session)
    requires a.Reply? ==> a.result.state.Valid()
    ensures t.outputs == s.outputs + [if a.Quit? then Farewell else a.result.message]
    ensures a.Quit? ==> t.contacts == s.contacts && t.status == Exited
    ensures a.Reply? ==> t.contacts == a.result.state && t.status == Running
  {
    match a
    case Quit => Session(s.contacts, s.outputs + [Farewell], Exited)
    case Reply(Updated(c, message)) => Session(c, s.outputs + [message], Running)
  }

  /** Feeds the lines to the loop in order; once it has stopped, the rest
      are never read. */
  function Run(s: Session, lines: seq<string>): (t: Session)
    requires s.contacts.Valid()
    ensures t.contacts.Valid()
    ensures s.status != Running ==> t == s
    ensures |s.outputs| <= |t.outputs| <= |s.outputs| + |lines|
    ensures t.outputs[..|s.outputs|] == s.outputs
    ensures s.status == Running && t.status == Running ==> |t.outputs| == |s.outputs| + |lines|
    decreases |lines|
  {
    if s.status != Running || |lines| == 0 then s
    else Run(Step(s, lines[0]), lines[1..])
  }

  /** The whole program run on a sequence of input lines. */
  function Main(lines: seq<string>): (t: Session)
    ensures t.contacts.Valid()
    ensures t.status == Running ==> |t.outputs| == |lines|
  {
    Run(Start(), lines)
  }

  // ----- properties of the loop -----

  /** Running on a + b is running on a and then on b. */
  lemma {:induction false} RunAppend(s: Session, a: seq<string>, b: seq<string>)
    requires s.contacts.Valid()
    ensures Run(s, a + b) == Run(Run(s, a), b)
    decreases |a|
  {
    if s.status != Running || |a| == 0 {
      assert a + b == b || s.status != Running;
    } else {
      assert (a + b)[1..] == a[1..] + b;
      RunAppend(Step(s, a[0]), a[1..], b);
    }
  }

  /** A running loop handles the first line, then the rest. */
  lemma RunCons(s: Session, line: string, rest: seq<string>)
    requires s.contacts.Valid() && s.status == Running
    ensures Run(s, [line] + rest) == Run(Step(s, line), rest)
  {
    assert ([line] + rest)[1..] == rest;
  }

  /** A trace of sessions, each the step of the one before on the next
      line, while all but the last are still reading. */
  ghost predicate Trace(ss: seq<Session>, lines: seq<string>) {
    && |ss| == |lines| + 1
    && (forall i :: 0 <= i < |lines| ==> ss[i].contacts.Valid() && ss[i].status == Running)
    && (forall i :: 0 <= i < |lines| ==> Step(ss[i], lines[i]) == ss[i + 1])
  }

  /** Running the lines from the first session of a trace ends in its last. */
  lemma {:induction false} RunFollowsTrace(ss: seq<Session>, lines: seq<string>)
    requires Trace(ss, lines) && ss[0].contacts.Valid()
    ensures Run(ss[0], lines) == ss[|lines|]
    decreases |lines|
  {
    if |lines| > 0 {
      assert Trace(ss[1..], lines[1..]) by {
        forall i | 0 <= i < |lines[1..]|
          ensures Step(ss[1..][i], lines[1..][i]) == ss[1..][i + 1]
        {
          assert Step(ss[i + 1], lines[i + 1]) == ss[i + 2];
        }
      }
      RunFollowsTrace(ss[1..], lines[1..]);
    }
  }

  /** Once the loop has stopped, further input changes nothing. */
  lemma InputAfterStopIgnored(s: Session, a: seq<string>, b: seq<string>)
    requires s.contacts.Valid()
    requires Run(s, a).status != Running
    ensures Run(s, a + b) == Run(s, a)
  {
    RunAppend(s, a, b);
  }

  /** A typed line reaches the handler with its command lower-cased and its
      arguments exactly as typed. */
  lemma StepOnTypedLine(s: Session, command: string, args: seq<string>)
    requires s.contacts.Valid() && s.status == Running
    requires IsWord(command) && AllWords(args)
    ensures Step(s, Unwords([command] + args)) == Perform(s, Dispatch(Lower(command), args, s.contacts))
  {
    ParseUnwords(command, args);
  }

  /** The same holds whatever whitespace surrounds and separates the words. */
  lemma StepOnSpacedLine(s: Session, lead: string, command: string, args: seq<string>, gaps: seq<string>)
    requires s.contacts.Valid() && s.status == Running
    requires AllSpace(lead) && IsWord(command) && AllWords(args)
    requires |gaps| == |args| + 1 && Gaps(gaps)
    ensures Step(s, lead + Spaced([command] + args, gaps)) == Perform(s, Dispatch(Lower(command), args, s.contacts))
  {
    ParseSpaced(lead, command, args, gaps);
  }

  /** `hello`, in any letter case and with any arguments, greets and
      changes nothing. */
  lemma HelloGreets(s: Session, hello: string, args: seq<string>)
    requires s.contacts.Valid() && s.status == Running
    requires IsWord(hello) && Lower(hello) == "hello" && AllWords(args)
    ensures Step(s, Unwords([hello] + args)) == Session(s.contacts, s.outputs + [Greeting], Running)
  {
    StepOnTypedLine(s, hello, args);
  }

  /** `change <name> <phone>` rebinds a known name in place and confirms;
      for an unknown name it reports the contact missing and stores nothing. */
  lemma ChangeStep(s: Session, change: string, name: string, phone: string)
    requires s.contacts.Valid() && s.status == Running
    requires IsWord(change) && Lower(change) == "change" && IsWord(name) && IsWord(phone)
    ensures name in s.contacts.values ==>
      Step(s, Unwords([change, name, phone])) == Session(Put(s.contacts, name, phone), s.outputs + [ContactUpdated], Running)
    ensures name !in s.contacts.values ==>
      Step(s, Unwords([change, name, phone])) == Session(s.contacts, s.outputs + [ContactMissing], Running)
  {
    StepOnTypedLine(s, change, [name, phone]);
  }

  /** The letter case of the command word does not change what happens. */
  lemma CommandCaseIrrelevant(s: Session, c1: string, c2: string, args: seq<string>)
    requires s.contacts.Valid() && s.status == Running
    requires IsWord(c1) && IsWord(c2) && AllWords(args)
    requires Lower(c1) == Lower(c2)
    ensures Step(s, Unwords([c1] + args)) == Step(s, Unwords([c2] + args))
  {
    StepOnTypedLine(s, c1, args);
    StepOnTypedLine(s, c2, args);
  }

  /** A line whose first word is close, exit or bye in any letter case
      prints the farewell and stops with the store untouched. */
  lemma ExitWordStops(s: Session, line: string)
    requires s.contacts.Valid() && s.status == Running
    requires |Split(line)| > 0 && Lower(Split(line)[0]) in ExitCommands
    ensures Step(s, line) == Session(s.contacts, s.outputs + [Farewell], Exited)
  {
  }

  /** An unknown command word prints "Invalid command." and keeps the store. */
  lemma UnknownCommandKeepsStore(s: Session, line: string)
    requires s.contacts.Valid() && s.status == Running
    requires |Split(line)| > 0
    requires Lower(Split(line)[0]) !in ExitCommands + ["hello", "add", "change", "phone", "all"]
    ensures Step(s, line) == Session(s.contacts, s.outputs + [InvalidCommand], Running)
  {
  }

  /** Every stored phone is a single word, as `split()` delivers it. */
  ghost predicate WordPhones(c: Contacts) {
    forall k :: k in c.values ==> IsWord(c.values[k])
  }

  /** A session reachable from the start: a valid store of one-word phones,
      and no "Enter user name" printed yet. */
  ghost predicate Clean(s: Session) {
    && s.contacts.Valid()
    && WordPhones(s.contacts)
    && (forall i :: 0 <= i < |s.outputs| ==> s.outputs[i] != ErrorMessage(KeyError))
  }

  lemma ListingIsNotKeyErrorMessage(contacts: Contacts)
    requires contacts.Valid() && |contacts.keys| > 0
    ensures Join("\n", Lines(contacts)) != ErrorMessage(KeyError)
  {
    var first := Lines(contacts)[0];
    var k := contacts.keys[0];
    assert first == k + ": " + contacts.values[k];
    var listing := Join("\n", Lines(contacts));
    assert listing[|k|] == ':';
    assert forall i :: 0 <= i < |ErrorMessage(KeyError)| ==> ErrorMessage(KeyError)[i] != ':';
  }

  /** No reply of any handler is the KeyError message, and the store keeps
      one-word phones. */
  lemma DispatchKeepsClean(command: string, args: seq<string>, contacts: Contacts)
    requires contacts.Valid() && WordPhones(contacts) && AllWords(args)
    requires command !in ExitCommands
    ensures Dispatch(command, args, contacts).result.message != ErrorMessage(KeyError)
    ensures WordPhones(Dispatch(command, args, contacts).result.state)
  {
    var key := ErrorMessage(KeyError);
    assert IsSpace(key[5]);
    var r := Dispatch(command, args, contacts).result;
    if command == "add" || command == "change" {
      if |args| == 2 {
        forall k | k in r.state.values ensures IsWord(r.state.values[k]) {
          if k != args[0] {
            assert Get(r.state, k) == Get(contacts, k);
          } else {
            assert IsWord(args[1]);
          }
        }
      }
    } else if command == "phone" {
      if |args| > 0 && args[0] in contacts.values {
        assert r.message == contacts.values[args[0]];
        assert IsWord(r.message);
      }
    } else if command == "all" {
      EmptyAgrees(contacts);
      if |contacts.keys| > 0 {
        ListingIsNotKeyErrorMessage(contacts);
      }
    }
  }

  lemma StepKeepsClean(s: Session, line: string)
    requires Clean(s) && s.status == Running
    ensures Clean(Step(s, line))
  {
    match ParseInput(line)
    case None =>
    case Some(Parsed(command, args)) =>
      var t := Step(s, line);
      if command !in ExitCommands {
        DispatchKeepsClean(command, args, s.contacts);
      }
      assert t.outputs == s.outputs + [t.outputs[|s.outputs|]];
  }

  lemma {:induction false} RunKeepsClean(s: Session, lines: seq<string>)
    requires Clean(s)
    ensures Clean(Run(s, lines))
    decreases |lines|
  {
    if s.status == Running && |lines| > 0 {
      StepKeepsClean(s, lines[0]);
      RunKeepsClean(Step(s, lines[0]), lines[1..]);
    }
  }

  /** "Enter user name" is never printed: no handler can raise KeyError. */
  lemma NeverAsksForUserName(lines: seq<string>)
    ensures forall i :: 0 <= i < |Main(lines).outputs| ==> Main(lines).outputs[i] != "Enter user name"
  {
    RunKeepsClean(Start(), lines);
  }
}
