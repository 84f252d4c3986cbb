/** Sessions of the assistant bot, proved from the loop model for any
    contact name and phone a user can type as single words. */
module Scenarios {
  import opened Outcomes
  import opened Text
  import opened OrderedMap
  import opened Commands
  import opened Repl

  lemma CommandWords()
    ensures Lower("add") == "add" && Lower("phone") == "phone"
    ensures Lower("all") == "all" && Lower("exit") == "exit"
  {
  }

  /** The store holding one contact. */
  function One(name: string, phone: string): (c: Contacts)
    ensures c.Valid()
  {
    Put(Empty(), name, phone)
  }

  lemma OneListing(name: string, phone: string)
    ensures Lines(One(name, phone)) == [name + ": " + phone]
  {
    var c := One(name, phone);
    assert c.keys == [name];
    assert Join("\n", [name + ": " + phone]) == name + ": " + phone;
  }

  lemma AddStep(s: Session, add: string, name: string, phone: string)
    requires s.contacts == Empty() && s.status == Running
    requires IsWord(add) && Lower(add) == "add" && IsWord(name) && IsWord(phone)
    ensures Step(s, Unwords([add, name, phone]))
      == Session(One(name, phone), s.outputs + [ContactAdded], Running)
  {
    StepOnTypedLine(s, add, [name, phone]);
  }

  lemma PhoneStep(s: Session, show: string, name: string, phone: string)
    requires s.contacts == One(name, phone) && s.status == Running
    requires IsWord(show) && Lower(show) == "phone" && IsWord(name)
    ensures Step(s, Unwords([show, name])) == Session(s.contacts, s.outputs + [phone], Running)
  {
    StepOnTypedLine(s, show, [name]);
  }

  lemma AllStep(s: Session, all: string, name: string, phone: string)
    requires s.contacts == One(name, phone) && s.status == Running
    requires IsWord(all) && Lower(all) == "all"
    ensures Step(s, Unwords([all])) == Session(s.contacts, s.outputs + [name + ": " + phone], Running)
  {
    StepOnTypedLine(s, all, []);
    OneListing(name, phone);
  }

  lemma ExitStep(s: Session, quit: string)
    requires s.contacts.Valid() && s.status == Running
    requires IsWord(quit) && Lower(quit) in ExitCommands
    ensures Step(s, Unwords([quit])) == Session(s.contacts, s.outputs + [Farewell], Exited)
  {
    StepOnTypedLine(s, quit, []);
  }

  /** The sessions after each line of the add, phone, all, exit dialogue. */
  function Dialogue(name: string, phone: string): seq<Session> {
    var c := One(name, phone);
    [ Start(),
      Session(c, [ContactAdded], Running),
      Session(c, [ContactAdded, phone], Running),
      Session(c, [ContactAdded, phone, name + ": " + phone], Running),
      Session(c, [ContactAdded, phone, name + ": " + phone, Farewell], Exited) ]
  }

  lemma DialogueIsTrace(add: string, show: string, all: string, quit: string, name: string, phone: string)
    requires IsWord(add) && Lower(add) == "add"
    requires IsWord(show) && Lower(show) == "phone"
    requires IsWord(all) && Lower(all) == "all"
    requires IsWord(quit) && Lower(quit) in ExitCommands
    requires IsWord(name) && IsWord(phone)
    ensures Trace(Dialogue(name, phone), [Unwords([add, name, phone]), Unwords([show, name]), Unwords([all]), Unwords([quit])])
  {
    var ss := Dialogue(name, phone);
    var lines := [Unwords([add, name, phone]), Unwords([show, name]), Unwords([all]), Unwords([quit])];
    forall i | 0 <= i < |lines| ensures Step(ss[i], lines[i]) == ss[i + 1] {
      if i == 0 {
        AddStep(ss[0], add, name, phone);
      } else if i == 1 {
        PhoneStep(ss[1], show, name, phone);
      } else if i == 2 {
        AllStep(ss[2], all, name, phone);
      } else {
        ExitStep(ss[3], quit);
      }
    }
  }

  /** `add <name> <phone>`, `phone <name>`, `all`, `exit` (each command word
      in any letter case): the confirmation, the phone, the one-line listing
      and the farewell, and then the loop stops. */
  lemma AddLookUpListExit(add: string, show: string, all: string, quit: string, name: string, phone: string)
    requires IsWord(add) && Lower(add) == "add"
    requires IsWord(show) && Lower(show) == "phone"
    requires IsWord(all) && Lower(all) == "all"
    requires IsWord(quit) && Lower(quit) in ExitCommands
    requires IsWord(name) && IsWord(phone)
    ensures Main([Unwords([add, name, phone]), Unwords([show, name]), Unwords([all]), Unwords([quit])])
      == Session(One(name, phone), [ContactAdded, phone, name + ": " + phone, Farewell], Exited)
  {
    DialogueIsTrace(add, show, all, quit, name, phone);
    RunFollowsTrace(Dialogue(name, phone), [Unwords([add, name, phone]), Unwords([show, name]), Unwords([all]), Unwords([quit])]);
  }

  /** Main on a single line that does not crash is one step. */
  lemma MainOneLine(line: string)
    requires !AllSpace(line)
    ensures Main([line]) == Step(Start(), line)
  {
    RunCons(Start(), line, []);
    assert [line] == [line] + [];
  }

  /** `add <name>` lacks the phone: the arity message, nothing stored, and
      the loop keeps reading. */
  lemma AddMissingPhone(name: string)
    requires IsWord(name)
    ensures Main([Unwords(["add", name])])
      == Session(Empty(), ["Give me name and phone number please"], Running)
  {
    CommandWords();
    StepOnTypedLine(Start(), "add", [name]);
    MainOneLine(Unwords(["add", name]));
  }

  /** Looking up any name in the empty store reports it missing. */
  lemma PhoneOfUnknown(name: string)
    requires IsWord(name)
    ensures Main([Unwords(["phone", name])]) == Session(Empty(), ["Error: Contact not found."], Running)
  {
    CommandWords();
    StepOnTypedLine(Start(), "phone", [name]);
    MainOneLine(Unwords(["phone", name]));
  }

  /** The command word is matched in any case; the arguments are kept as typed. */
  lemma AnyCaseAdd(command: string, name: string, phone: string)
    requires IsWord(command) && Lower(command) == "add"
    requires IsWord(name) && IsWord(phone)
    ensures Main([Unwords([command, name, phone])]) == Session(One(name, phone), [ContactAdded], Running)
  {
    StepOnTypedLine(Start(), command, [name, phone]);
    MainOneLine(Unwords([command, name, phone]));
  }

  /** An add typed with stray whitespace (leading blanks, tabs, several
      spaces between words, trailing blanks) stores the contact just the same. */
  lemma SpacedAdd(lead: string, add: string, name: string, phone: string, gaps: seq<string>)
    requires AllSpace(lead) && |gaps| == 3 && Gaps(gaps)
    requires IsWord(add) && Lower(add) == "add" && IsWord(name) && IsWord(phone)
    ensures Main([lead + Spaced([add, name, phone], gaps)]) == Session(One(name, phone), [ContactAdded], Running)
  {
    var line := lead + Spaced([add] + [name, phone], gaps);
    ParseSpaced(lead, add, [name, phone], gaps);
    StepOnSpacedLine(Start(), lead, add, [name, phone], gaps);
    MainOneLine(line);
  }

  /** A blank line makes `parse_input` raise outside the decorator: the
      program stops without a reply and ignores whatever follows. */
  lemma BlankLineCrashes(blank: string, rest: seq<string>)
    requires AllSpace(blank)
    ensures Main([blank] + rest) == Session(Empty(), [], Crashed)
  {
    RunCons(Start(), blank, rest);
  }
}
