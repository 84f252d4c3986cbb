/** The simple-mode command layer of main_start.py: `parse_input`, the
    `input_error` decorator, the four handlers over a `name -> phone` dict,
    and the table that routes a command word to its handler. */
module Commands {
  import opened Outcomes
  import opened Text
  import opened OrderedMap

  /** The `contacts` dict: name to phone, in insertion order. */
  type Contacts = Dict<string>

  const ContactAdded := "Contact added."
  const ContactUpdated := "Contact updated."
  const ContactMissing := "Error: Contact not found."
  const NoContacts := "Contacts not found"
  const Greeting := "How can I help you?"
  const Farewell := "Good bye!"
  const InvalidCommand := "Invalid command."

  /** A line split into its lower-cased command word and its arguments. */
  datatype Parsed = Parsed(command: string, args: seq<string>)

  /** `parse_input`: None stands for the ValueError raised when the line has
      no word to unpack. */
  function ParseInput(line: string): (r: Option<Parsed>)
    ensures r.None? <==> AllSpace(line)
    ensures r.Some? ==> IsWord(r.value.command) && AllWords(r.value.args)
  {
    var words := Split(line);
    if |words| == 0 then None
    else Some(Parsed(Lower(words[0]), words[1..]))
  }

  /** A line typed as a command word followed by argument words parses to
      the lower-cased word and exactly those arguments. */
  lemma ParseUnwords(command: string, args: seq<string>)
    requires IsWord(command) && AllWords(args)
    ensures ParseInput(Unwords([command] + args)) == Some(Parsed(Lower(command), args))
  {
    SplitUnwords([command] + args);
    assert ([command] + args)[1..] == args;
  }

  /** Whatever the spacing (leading, trailing, repeated, tabs), a line whose
      words are a command and its arguments parses to the lower-cased
      command and exactly those arguments. */
  lemma ParseSpaced(lead: string, command: string, args: seq<string>, gaps: seq<string>)
    requires AllSpace(lead) && IsWord(command) && AllWords(args)
    requires |gaps| == |args| + 1 && Gaps(gaps)
    ensures ParseInput(lead + Spaced([command] + args, gaps)) == Some(Parsed(Lower(command), args))
  {
    var ws := [command] + args;
    assert AllWords(ws) by {
      forall i | 0 <= i < |ws| ensures IsWord(ws[i]) {
        if i > 0 {
          assert ws[i] == args[i - 1];
        }
      }
    }
    SplitSpaced(lead, ws, gaps);
    assert ws[1..] == args;
  }

  /** The exceptions `input_error` turns into messages. */
  datatype InputError =
    | ValueError   // wrong number of values to unpack from args
    | KeyError     // a missing dict key
    | IndexError   // args[0] of an empty list

  /** Each exception has its own fixed message. */
  function ErrorMessage(e: InputError): (m: string)
    ensures m == "Give me name and phone number please" <==> e == ValueError
    ensures m == "Enter user name" <==> e == KeyError
    ensures m == "Enter the argument for the command" <==> e == IndexError
  {
    match e
    case ValueError => "Give me name and phone number please"
    case KeyError => "Enter user name"
    case IndexError => "Enter the argument for the command"
  }

  /** What a handler does before the decorator sees it: a new store and a
      reply, or a raised error. */
  type Handled = Result<Updated<Contacts>, InputError>

  /** `input_error`: a handler's reply passes through untouched; a raised
      error becomes its fixed message, and since every handler raises before
      writing, the store is the one the handler was given. */
  function InputErrorGuard(h: Handled, contacts: Contacts): (u: Updated<Contacts>)
    ensures h.Ok? ==> u == h.value
    ensures h.Err? ==> u.state == contacts && u.message == ErrorMessage(h.error)
  {
    match h
    case Ok(reply) => reply
    case Err(e) => Updated(contacts, ErrorMessage(e))
  }

  /** `add_contact`: exactly two arguments bind name to phone, replacing any
      earlier phone; any other count raises ValueError. */
  function AddContact(args: seq<string>, contacts: Contacts): (r: Handled)
    requires contacts.Valid()
    ensures r.Ok? <==> |args| == 2
    ensures r.Err? ==> r.error == ValueError
    ensures r.Ok? ==>
      && r.value.state.Valid()
      && r.value.message == ContactAdded
      && Get(r.value.state, args[0]) == Some(args[1])
      && (forall k :: k != args[0] ==> Get(r.value.state, k) == Get(contacts, k))
  {
    if |args| != 2 then Err(ValueError)
    else Ok(Updated(Put(contacts, args[0], args[1]), ContactAdded))
  }

  /** `change_contact`: two arguments and a known name rebind the phone in
      place; an unknown name is reported and nothing changes; any other
      count raises ValueError. */
  function ChangeContact(args: seq<string>, contacts: Contacts): (r: Handled)
    requires contacts.Valid()
    ensures r.Ok? <==> |args| == 2
    ensures r.Err? ==> r.error == ValueError
    ensures r.Ok? && args[0] in contacts.values ==>
      && r.value.state.Valid()
      && r.value.message == ContactUpdated
      && r.value.state.keys == contacts.keys
      && Get(r.value.state, args[0]) == Some(args[1])
      && (forall k :: k != args[0] ==> Get(r.value.state, k) == Get(contacts, k))
    ensures r.Ok? && args[0] !in contacts.values ==>
      r.value == Updated(contacts, ContactMissing)
  {
    if |args| != 2 then Err(ValueError)
    else if args[0] in contacts.values then Ok(Updated(Put(contacts, args[0], args[1]), ContactUpdated))
    else Ok(Updated(contacts, ContactMissing))
  }

  /** `show_phone`: the phone of the first argument, or a not-found reply;
      later arguments are ignored, none at all raises IndexError. */
  function ShowPhone(args: seq<string>, contacts: Contacts): (r: Handled)
    ensures r.Ok? <==> |args| > 0
    ensures r.Err? ==> r.error == IndexError
    ensures r.Ok? ==> r.value.state == contacts
    ensures r.Ok? && args[0] in contacts.values ==> r.value.message == contacts.values[args[0]]
    ensures r.Ok? && args[0] !in contacts.values ==> r.value.message == ContactMissing
  {
    if |args| == 0 then Err(IndexError)
    else match Get(contacts, args[0])
      case Some(phone) => Ok(Updated(contacts, phone))
      case None => Ok(Updated(contacts, ContactMissing))
  }

  /** One `name: phone` line per contact, in insertion order. */
  function Lines(contacts: Contacts): (ls: seq<string>)
    requires contacts.Valid()
    ensures |ls| == |contacts.keys|
    ensures forall i :: 0 <= i < |ls| ==> ls[i] == contacts.keys[i] + ": " + contacts.values[contacts.keys[i]]
  {
    seq(|contacts.keys|, i requires 0 <= i < |contacts.keys| =>
      contacts.keys[i] + ": " + contacts.values[contacts.keys[i]])
  }

  /** `show_all`: never raises and never writes. */
  function ShowAll(contacts: Contacts): (r: Handled)
    requires contacts.Valid()
    ensures r.Ok? && r.value.state == contacts
    ensures |contacts.keys| == 0 ==> r.value.message == NoContacts
    ensures |contacts.keys| > 0 ==> r.value.message == Join("\n", Lines(contacts))
  {
    EmptyAgrees(contacts);
    if |contacts.values| == 0 then
      Ok(Updated(contacts, NoContacts))
    else
      Ok(Updated(contacts, Join("\n", Lines(contacts))))
  }

  /** The listing follows insertion order: adding a new name appends its
      line, rebinding a known name rewrites its line where it stands. */
  lemma ListingOrder(contacts: Contacts, name: string, phone: string)
    requires contacts.Valid()
    ensures name !in contacts.values ==>
      Lines(Put(contacts, name, phone)) == Lines(contacts) + [name + ": " + phone]
    ensures name in contacts.values ==>
      exists i :: 0 <= i < |contacts.keys| && contacts.keys[i] == name &&
        Lines(Put(contacts, name, phone)) == Lines(contacts)[i := name + ": " + phone]
  {
    var after := Put(contacts, name, phone);
    if name in contacts.values {
      var i :| 0 <= i < |contacts.keys| && contacts.keys[i] == name;
      assert Lines(after) == Lines(contacts)[i := name + ": " + phone];
    } else {
      assert Lines(after) == Lines(contacts) + [name + ": " + phone];
    }
  }

  /** No handler ever raises KeyError: every lookup is guarded by `in`. */
  lemma NoHandlerRaisesKeyError(args: seq<string>, contacts: Contacts)
    requires contacts.Valid()
    ensures AddContact(args, contacts) != Err(KeyError)
    ensures ChangeContact(args, contacts) != Err(KeyError)
    ensures ShowPhone(args, contacts) != Err(KeyError)
    ensures ShowAll(contacts) != Err(KeyError)
  {
  }

  const ExitCommands := ["close", "exit", "bye"]

  /** What the loop does with one parsed command. */
  datatype Action = Quit | Reply(result: Updated<Contacts>)

  /** The `if`/`elif` chain of `main`, each handler wrapped by `input_error`. */
  function Dispatch(command: string, args: seq<string>, contacts: Contacts): (a: Action)
    requires contacts.Valid()
    ensures a.Quit? <==> command in ExitCommands
    ensures a.Reply? ==> a.result.state.Valid()
    ensures command == "hello" ==> a == Reply(Updated(contacts, Greeting))
    ensures command !in ExitCommands + ["hello", "add", "change", "phone", "all"] ==>
      a == Reply(Updated(contacts, InvalidCommand))
  {
    if command in ExitCommands then Quit
    else if command == "hello" then Reply(Updated(contacts, Greeting))
    else if command == "add" then Reply(InputErrorGuard(AddContact(args, contacts), contacts))
    else if command == "change" then Reply(InputErrorGuard(ChangeContact(args, contacts), contacts))
    else if command == "phone" then Reply(InputErrorGuard(ShowPhone(args, contacts), contacts))
    else if command == "all" then Reply(InputErrorGuard(ShowAll(contacts), contacts))
    else Reply(Updated(contacts, InvalidCommand))
  }
}
