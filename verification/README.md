# Contact book assistant — Dafny model

This project models the core of a small command-line contact manager (the
"assistant bot"). It has three parts:

- **Phones and records** (`main.py`). A `Phone` accepts exactly ten decimal
  digits. A `Record` keeps an ordered list of phones and adds, removes, edits
  and finds them. Every operation answers with a status line and never raises.
- **The `AddressBook`**. A keyed collection of records. `add_record` lets the
  last write win. `find` gives `None` for an absent name. `delete` answers
  with a status line.
- **The simple-mode command layer** (`main_start.py`). `parse_input` splits
  a line into a lower-cased command and its arguments. The `input_error`
  decorator turns `ValueError`, `KeyError` and `IndexError` into fixed
  messages. Four handlers work on a `name -> phone` dict. The `main` loop
  dispatches commands until `close`, `exit` or `bye`.

`main.py:78-175` repeats `main_start.py:1-98` line for line, so the table
below cites `main_start.py` for the command layer.

The model is functional. States are immutable datatypes, and every operation
returns its new state together with its status line. Python dicts are
modelled as an insertion-ordered map (`OrderedMap.Dict`): a key sequence
plus a map. Overwriting a key keeps its position, and removing one keeps the
others in order. The loop is modelled as a fold (`Repl.Run`) from input lines
to a `Session`: the store, everything printed, and a status of `Running`,
`Exited` or `Crashed`.

Modules: `Outcomes` (Option, Result, Updated), `Text` (Python's `split()`,
`lower()`, `isdigit()`, `join`), `OrderedMap`, `Phonebook` (Phone, Record),
`AddressBooks`, `Commands` (parser, decorator, handlers, dispatch table),
`Repl` (the loop), `Scenarios` (whole dialogues).

The model follows the code in three places where a reader might expect otherwise:

- On a line with no words, `parse_input` raises `ValueError` outside the
  decorator (`main_start.py:6`, called at `:82`). The program stops there.
  It does not answer "Invalid command.". The model's status becomes
  `Crashed`, nothing is printed and later lines are never read.
- Duplicate phones are appended, not rejected (`main.py:29-35`).
- "Enter user name" can never be printed. Every handler checks `in`
  before it indexes the dict (`main_start.py:46`, `:59`), so none raises
  `KeyError`.

## Model

| member | source | states |
|---|---|---|
| Text.Split | main_start.py:6 | `split()` gives non-empty tokens that contain no whitespace; it gives no tokens exactly when the line is all whitespace |
| Text.SplitKeepsText | main_start.py:6 | gluing the tokens back together gives the line with only its whitespace removed |
| Text.SplitUnwords | main_start.py:6 | splitting a line made of words joined by spaces gives back exactly those words, in order |
| Text.SplitSkipsSpace | main_start.py:6 | leading whitespace of any kind and length does not change the tokens |
| Text.SplitSpaced | main_start.py:6 | the tokens are the maximal whitespace-free runs: a line made of optional leading whitespace, then words each followed by a whitespace run (non-empty between words, possibly empty at the end), splits to exactly those words |
| Text.SplitShape | main_start.py:6 | conversely, every line is leading whitespace plus its own tokens separated by non-empty whitespace runs and an optional trailing run, so with SplitSpaced the tokens are determined by the line |
| Text.Lower | main_start.py:7 | `lower()` keeps the length and lower-cases every character independently (ASCII letters only) |
| Text.LowerIdempotent | main_start.py:7 | lower-casing an already lower-cased command changes nothing |
| Text.Join | main.py:61 | a join starts with its first part |
| Text.JoinSnoc | main_start.py:71 | joining one more part appends the separator and that part, so `sep.join` puts the separator between consecutive parts only |
| OrderedMap.Put | main_start.py:35 | `d[k] = v` keeps the dict well formed; `k` now maps to `v` and no other key changes; a known key keeps its position and a new key goes last |
| OrderedMap.Remove | main.py:72-73 | `pop` of a present key removes only that key, and the keys before and after its position stay in order; an absent key leaves the dict as it was |
| OrderedMap.PutThenRemove | main.py:65-73 | inserting a fresh key and then popping it restores the dict, order included |
| Phonebook.IsDigitString | main.py:19 | `isdigit()` is true exactly of a non-empty string made only of digits |
| Phonebook.ValidatePhone | main.py:17-21 | a phone is accepted exactly when it has ten characters that are all digits, and it is kept unchanged; otherwise the error is "Phone number must be 10 digits long" |
| Phonebook.NewRecord | main.py:25-27 | a new record has the given name and no phones |
| Phonebook.FirstIndex | main.py:38-39 | the loop finds the first phone equal to the number, or none when the number is absent |
| Phonebook.AddPhone | main.py:29-35 | a valid number is appended at the end, even if it is already there, with "Phone number {n} added"; an invalid one leaves the record unchanged and returns the validation message |
| Phonebook.RemovePhone | main.py:37-42 | only the first copy of the number is removed; the other phones keep their order and the list gets one shorter; an absent number returns "Phone number not found" and changes nothing |
| Phonebook.EditPhone | main.py:44-52 | the length never changes; the first copy of `old` becomes `new` at the same index when `new` is valid; an invalid `new` returns the validation message and an absent `old` returns "Phone number not found", both with the list unchanged |
| Phonebook.FindPhone | main.py:54-58 | returns the number when the record holds it, otherwise "Phone number not found" |
| Phonebook.AddPhoneKeepsWellFormed | main.py:29-35 | adding never lets an unvalidated number into the list |
| Phonebook.RemovePhoneKeepsWellFormed | main.py:37-42 | removing never lets an unvalidated number into the list |
| Phonebook.EditPhoneKeepsWellFormed | main.py:44-52 | editing never lets an unvalidated number into the list |
| Phonebook.AddThenFind | main.py:29-58 | after a successful `add_phone(n)`, `find_phone(n)` returns `n` |
| Phonebook.RemoveThenFind | main.py:37-58 | after `remove_phone(n)` on a list with one copy of `n`, `find_phone(n)` returns "Phone number not found" |
| Phonebook.EditThenFind | main.py:44-58 | after a successful edit the new number is found; after an edit with an invalid new number the old number is still found |
| Phonebook.Render | main.py:60-61 | the printed record always opens with "Contact name: " and the name |
| Phonebook.RenderLayout | main.py:60-61 | the printed record is "Contact name: ", the name, ", phones: ", then the phones in list order, each followed by "; " except the last, with nothing after the last phone (its exact length is stated) |
| Phonebook.RenderDeterminesPhones | main.py:60-61 | two records of the same contact print the same only when they hold the same phones in the same order |
| AddressBooks.AddRecord | main.py:65-66 | adding a record keeps the book well formed |
| AddressBooks.AddRecordThenFind | main.py:65-69 | after `add_record(r)`, `find(r.name)` returns `r`; every other name finds what it found before; a known name keeps its position and a new one goes last |
| AddressBooks.Find | main.py:68-69 | `find` returns the stored record, or none exactly when the name is absent |
| AddressBooks.Delete | main.py:71-75 | a present name is removed with "Contact {name} deleted", no other name changes and the remaining names keep their order; an absent name returns "Contact not found" and leaves the book unchanged |
| AddressBooks.AddThenDelete | main.py:65-75 | adding a record under a new name and then deleting it restores the book exactly |
| AddressBooks.BookOperationsKeepFiling | main.py:65-75 | after add and delete, every record is still stored under its own name |
| Commands.ParseInput | main_start.py:1-8 | no words gives the `ValueError` case; otherwise the command is a word and the arguments are words |
| Commands.ParseUnwords | main_start.py:1-8 | a typed line parses to its first word lower-cased and the remaining words unchanged and in order |
| Commands.ParseSpaced | main_start.py:1-8 | with any leading, trailing or repeated whitespace between the words, a line parses to its first word lower-cased and the other words in order |
| Commands.ErrorMessage | main_start.py:21-26 | `ValueError`, `KeyError` and `IndexError` each have their own message, and each message belongs to exactly one of them |
| Commands.InputErrorGuard | main_start.py:11-28 | a handler's reply passes through unchanged; `ValueError`, `KeyError` and `IndexError` become their fixed messages and leave the store as it was |
| Commands.AddContact | main_start.py:31-36 | two arguments set `name -> phone`, overwriting any earlier phone, with "Contact added."; any other count raises `ValueError` |
| Commands.ChangeContact | main_start.py:39-49 | two arguments and a known name update that phone in place with "Contact updated."; an unknown name returns "Error: Contact not found." and changes nothing; any other count raises `ValueError` |
| Commands.ShowPhone | main_start.py:52-61 | returns the phone of the first argument or "Error: Contact not found."; extra arguments are ignored; no arguments raises `IndexError`; the store is never changed |
| Commands.Lines | main_start.py:71 | one `name: phone` line per stored contact, in insertion order |
| Commands.ShowAll | main_start.py:64-71 | never raises and never writes; an empty store gives "Contacts not found", otherwise the `name: phone` lines joined by newlines |
| Commands.ListingOrder | main_start.py:64-71 | the listing follows insertion order: a new name adds its line at the end and an update rewrites the line where it stands |
| Commands.NoHandlerRaisesKeyError | main_start.py:31-71 | no handler raises `KeyError` |
| Commands.Dispatch | main_start.py:84-98 | the loop stops exactly on close, exit or bye; `hello` replies "How can I help you?" and changes nothing; any other unknown word gives "Invalid command." and leaves the store unchanged |
| Repl.Step | main_start.py:80-98 | one turn crashes exactly on a blank line, without printing or writing; any other line prints exactly one reply |
| Repl.Perform | main_start.py:84-98 | an exit prints "Good bye!" and stops with the store as it was; a reply is printed and the loop goes on with the handler's store |
| Repl.Run | main_start.py:80-98 | the loop prints at most one line per input line and exactly one per line while it keeps running; once stopped it reads nothing more |
| Repl.Main | main_start.py:74-98 | the program started on an empty dict keeps its store well formed and, while it runs, prints exactly one line per input line |
| Repl.RunAppend | main_start.py:80-98 | running `a + b` is the same as running `a` and then `b` |
| Repl.RunFollowsTrace | main_start.py:80-98 | a chain of single steps, run together, ends in the chain's last session |
| Repl.InputAfterStopIgnored | main_start.py:84-86 | once the loop has stopped, more input changes nothing |
| Repl.StepOnTypedLine | main_start.py:82-98 | the handler sees a typed line's command lower-cased and its arguments exactly as typed |
| Repl.StepOnSpacedLine | main_start.py:82-98 | the handler sees the same command and arguments whatever whitespace surrounds and separates the words |
| Repl.HelloGreets | main_start.py:87-88 | `hello` in any letter case, with any arguments, prints "How can I help you?" and changes nothing |
| Repl.ChangeStep | main_start.py:91-92 | `change n p` on a known name stores the new phone in place and prints "Contact updated."; on an unknown name it prints "Error: Contact not found." and stores nothing |
| Repl.CommandCaseIrrelevant | main_start.py:7 | two spellings of a command that differ only in letter case have the same effect |
| Repl.ExitWordStops | main_start.py:84-86 | close, exit or bye, in any letter case, prints "Good bye!", stops the loop and leaves the store unchanged |
| Repl.UnknownCommandKeepsStore | main_start.py:97-98 | an unknown command prints "Invalid command." and leaves the store unchanged |
| Repl.NeverAsksForUserName | main_start.py:23-24 | no run ever prints "Enter user name" |
| Scenarios.AddLookUpListExit | main_start.py:74-98 | `add n p`, `phone n`, `all`, `exit` print "Contact added.", `p`, "n: p" and "Good bye!", then the loop stops |
| Scenarios.AddMissingPhone | main_start.py:31-36 | `add n` prints "Give me name and phone number please", stores nothing and keeps reading |
| Scenarios.PhoneOfUnknown | main_start.py:52-61 | `phone n` on the empty store prints "Error: Contact not found." |
| Scenarios.AnyCaseAdd | main_start.py:7 | `ADD`, `Add` and the like add the contact with the name and phone exactly as typed |
| Scenarios.SpacedAdd | main_start.py:6 | `add n p` typed with stray leading, repeated or trailing whitespace stores the contact just as the tidy line does |
| Scenarios.BlankLineCrashes | main_start.py:6 | a blank first line ends the program with no output, whatever follows |

## Left out

- Console I/O: `input()`, `print`, the welcome banner and the prompt. The loop takes its input as a list of lines and returns its outputs as a list. Running out of input leaves the session `Running`; the real program would raise `EOFError` at that point.
- Python's exception and decorator machinery as such. It is replaced by the `InputError` result kind and `InputErrorGuard`.
- `Field`, `Name` and `UserDict` inheritance. Only the domain operations are modelled; `Field.__str__` is not.
- Text.Join: its contract states only the first part as prefix; the layout of the joins the program prints is stated by Text.JoinSnoc, Phonebook.RenderLayout and Commands.ShowAll.
- Object identity and aliasing. Python stores `Record` objects by reference, so a record changed after `add_record` also changes inside the book. The model stores record values.
- Extended-mode commands (`remove-phone`, `edit-phone`, `find-phone`, `delete`). No dispatcher calls them. `Record` and `AddressBook` are modelled as a standalone API, because `main()` never uses them.
- Phonebook.ValidatePhone: uses ASCII '0'-'9' only. Python's `isdigit()` also accepts other Unicode digits such as '²' or Arabic-Indic digits, so the model rejects some numbers that the program would accept.
- Phonebook.IsDigitString: ASCII digits only, for the same reason.
- Text.Lower: lower-cases ASCII 'A'-'Z' only. For dispatch this makes no difference. The only non-ASCII character that Python lower-cases to an ASCII letter is the Kelvin sign (U+212A, to 'k'), and no command word contains 'k'.
- Text.Split: separators are Python's whitespace characters, listed by code point. Strings are sequences of Unicode scalar values, as Python's `str` is for ordinary input.
