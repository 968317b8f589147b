# Coursework programs: goal tracker, orders, journal and scripture memorisers

This project models five small C# programs and proves properties about them:

- **Eternal Quest** (`prove/Develop05/Program.cs`): goals of four classes (`Goal`,
  `SimpleGoal`, `EternalGoal`, `ChecklistGoal`) sit in an ordered list owned by
  `EternalQuestProgram`, which also keeps a score.
  - Recording an event marks the first goal that has the given name and is not
    completed, then adds that goal's value to the score.
  - Goals are saved as comma-separated lines and loaded back from them
    (`eternal_quest.dfy`).
- **Orders** (`final/Foundation2/Program.cs`): addresses, customers and products
  are values. An order's product array grows by one slot for each product added.
  - The total is the sum of price × quantity, plus shipping: 5 within the USA and
    35 elsewhere.
  - The order also produces a packing label and a shipping label (`orders.dfy`).
- **Journal** (`prove/Develop02/Program.cs`): entries are appended to a list,
  saved as `date,prompt,response` lines, and loaded back by splitting each line
  at its commas (`journal.dfy`).
- **Scripture drill** (`prove/Develop03/Program.cs`): a text is split into word
  objects. Each round shuffles the word list in place (Fisher–Yates) and toggles
  the hidden flag of the first `min(n, count)` words (`scripture_drill.dfy`).
- **Scripture memoriser** (`Scripture.cs`): it hides the words at `n` random
  indices, renders the words joined by spaces, and reports whether every word is
  hidden (`scripture_memorizer.dfy`).

Shared pieces:
- `text.dfy` models the .NET string routines the programs rely on:
  - `String.Split(char)`;
  - integer and boolean rendering and parsing (`int.Parse` fails outside the
    32-bit range);
  - `ToLower` and `Trim`.
- `line_files.dfy` models the loading pattern both persistent programs share:
  - the list is cleared, then each line is parsed and appended;
  - the first line that throws ends the load and leaves the items parsed before it.
    Neither program catches that exception, so the program stops there; the
    model describes the list at the moment of the throw.
- `wrappers.dfy` holds `Option`.

Where the model has to stand in for things outside the programs:
- Files are modelled as sequences of lines.
- The console input and today's date become parameters.
- `System.Random` becomes the sequence of values it returns. A precondition
  gives each value the range of its `Next` call.

In several places the goal tracker behaves differently from what its class
names and its save-and-load pair suggest:
- An `EternalGoal` does not override `MarkComplete`, so one event completes it
  and later events against it find nothing to mark
  (`EternalQuest.SingleEventCompletes`).
- A loaded checklist always has exactly one completion. This is because
  `LoadGoals` builds a new checklist and calls `MarkComplete` once, so the saved
  progress is lost (`EternalQuest.ChecklistProgressIsLost`).
- When its name holds no comma, a saved base, simple or eternal goal has three
  fields. `LoadGoals` reads five fields, so it throws on such a line
  (`EternalQuest.SaveThenLoad`). The model's result is the list as it stands at
  that throw, holding the goals before the line; `Main` does not catch the
  exception (`prove/Develop05/Program.cs:195`), so the program then stops.
- Names are written without escaping, so a comma in a name shifts the fields.
  A base, simple or eternal goal whose name is a comma-free head followed by a
  value, a flag and a count loads back as a checklist named by the head, with
  its own value as the target, whenever that value is positive
  (`EternalQuest.CommaInNameMisloads`). For example, a base goal named
  `Run,1,True,0` with value 5 loads back as a completed checklist named `Run`
  (`EternalQuest.CommaInNameExample`).
- The file has no type tag. A loaded goal is a checklist when its target is
  positive, and a base `Goal` otherwise.

## Model

| member | source | states |
|---|---|---|
| EternalQuest.NewGoal | prove/Develop05/Program.cs:14-19 | a new goal of any class starts not completed and with no completions |
| EternalQuest.Goal.Base | prove/Develop05/Program.cs:14-19 | `new Goal(name, value)` holds the name and value, not completed |
| EternalQuest.Goal.Simple | prove/Develop05/Program.cs:40-42 | `new SimpleGoal(name, value)` starts like a base goal |
| EternalQuest.Goal.Eternal | prove/Develop05/Program.cs:54-56 | `new EternalGoal(name, value)` starts like a base goal |
| EternalQuest.Goal.Checklist | prove/Develop05/Program.cs:70-74 | a new checklist keeps its target and starts with 0 completions, not completed |
| EternalQuest.Goal.MarkComplete | prove/Develop05/Program.cs:21-24 | the goal's new state is `Marked` of its old state |
| EternalQuest.Marked | prove/Develop05/Program.cs:76-84 | a checklist gains exactly one completion and is completed iff it already was or its completions reach the target; any other goal becomes completed and is otherwise unchanged; completion is never undone |
| EternalQuest.SingleEventCompletes | prove/Develop05/Program.cs:52-62 | when it is the only goal with that name, a base, simple or eternal goal is completed by one event that adds its value once; a second event against the name changes nothing, so an eternal goal awards only once |
| EternalQuest.ChecklistStep | prove/Develop05/Program.cs:76-84 | when it is the only goal with that name and its completed flag matches whether its count has reached its target (with a count between 0 and the target), one event against a checklist below its target adds one completion and its value; at the target the event changes nothing |
| EternalQuest.ChecklistEvent | prove/Develop05/Program.cs:113-121 | when it is the only goal with that name, one event against a checklist in any state (a reloaded one completed below its target, a fresh one of target 0) adds one completion and its value and completes it once the count reaches the target if it is open, and changes nothing if it is completed |
| EternalQuest.ChecklistCountsEvents | prove/Develop05/Program.cs:76-84 | when it is the only goal with that name and its target is at least 1, after k events a fresh checklist shows min(k, target) completions, is completed iff k reaches the target, and the score has risen by that many times its value |
| EternalQuest.NewGoalWithinBound | prove/Develop05/Program.cs:70-74 | a new goal is within the completion bound |
| EternalQuest.RecordKeepsBound | prove/Develop05/Program.cs:113-125 | one event keeps every checklist at most at max(target, 1) completions, and below it while open |
| EternalQuest.EventsKeepBound | prove/Develop05/Program.cs:113-125 | any sequence of events keeps every checklist within that bound and keeps the number of goals |
| EternalQuest.FirstOpen | prove/Develop05/Program.cs:115 | the index found is the first goal with the name that is not completed; none is found iff no such goal exists |
| EternalQuest.Record | prove/Develop05/Program.cs:113-125 | with no open goal of that name, nothing changes; otherwise that goal alone is marked and the score rises by its value |
| EternalQuest.ProgressLineLabels | prove/Develop05/Program.cs:86-89 | the line starts with "Checklist Goal: " exactly for a checklist and "Eternal Goal: " exactly for an eternal goal; any other goal's line ends in "Yes" iff it is completed |
| EternalQuest.PlainLabel | prove/Develop05/Program.cs:26-29 | a base or simple goal's line starts with neither class label and ends in "Yes" iff the goal is completed |
| EternalQuest.EternalLabel | prove/Develop05/Program.cs:58-61 | an eternal goal's line starts with "Eternal Goal: ", not "Checklist Goal: ", and ends in "Yes" iff the goal is completed |
| EternalQuest.ChecklistLabel | prove/Develop05/Program.cs:86-89 | a checklist's line starts with "Checklist Goal: ", not "Eternal Goal: " |
| EternalQuest.Fields | prove/Develop05/Program.cs:91-94 | a goal is saved as 3 fields, or 5 for a checklist; the name comes first and no later field holds a comma |
| EternalQuest.GoalInfo | prove/Develop05/Program.cs:31-34 | when the name holds no comma, the saved line splits back into exactly the fields written |
| EternalQuest.Rebuilt | prove/Develop05/Program.cs:166-181 | a positive target rebuilds a checklist with one completion, completed iff the saved flag was set or the target is at most 1; otherwise a base goal with the saved flag and no completions |
| EternalQuest.ParseGoalLine | prove/Develop05/Program.cs:159-181 | a line loads only with at least 5 fields; the goal is a checklist iff field 4 parses to a positive target, otherwise a base goal; a loaded checklist has one completion and is within the bound |
| EternalQuest.SaveLines | prove/Develop05/Program.cs:144-147 | one line per goal, in list order, each its `GetGoalInfo` text |
| EternalQuest.ReloadGoal | prove/Develop05/Program.cs:151-185 | for a goal whose name holds no comma: a saved base, simple or eternal goal does not load; a checklist with a positive target loads with one completion, completed iff it was or the target is 1 |
| EternalQuest.SaveThenLoad | prove/Develop05/Program.cs:140-185 | when no name holds a comma, saving then loading gets through every line iff every goal is a checklist; the goals it loads keep name and value, and their completion count becomes 1 (0 for a target of 0 or less, which loads as a base goal) whatever it was when saved |
| EternalQuest.ChecklistProgressIsLost | prove/Develop05/Program.cs:167-172 | a checklist with 2 of 5 completions comes back from a save and load with 1 |
| EternalQuest.ShiftedFields | prove/Develop05/Program.cs:31-34 | a goal other than a checklist whose name is comma-free pieces joined by commas is saved as a line that splits into those pieces, then its value and its flag |
| EternalQuest.CommaInNameMisloads | prove/Develop05/Program.cs:159-181 | a base, simple or eternal goal of positive value whose name is a comma-free head, a value, a flag and a count loads as the checklist `Rebuilt` from the head, that value, that flag and its own value as the target |
| EternalQuest.CommaInNameExample | prove/Develop05/Program.cs:159-181 | the base goal "Run,1,True,0" of value 5 loads as a completed checklist "Run" of value 1 with 1 of 5 completions |
| EternalQuest.LoadGoalLine | prove/Develop05/Program.cs:159-181 | one pass of the load loop yields a new goal in the state `ParseGoalLine` gives, or nothing where the line throws |
| LineFiles.LoadLines | prove/Develop05/Program.cs:153-183 | a load keeps one item per line for the longest run of parsable lines from the start, in file order; it is complete iff every line parsed, and otherwise the next line does not parse |
| LineFiles.LoadLinesStopsAt | prove/Develop02/Program.cs:67-73 | a load that parsed the first lines into `items` and then ran out of lines or met a line that does not parse ends with exactly `items` |
| EternalQuest.EternalQuestProgram.constructor | prove/Develop05/Program.cs:102-106 | a new program has no goals and a score of 0 |
| EternalQuest.EternalQuestProgram.AddGoal | prove/Develop05/Program.cs:108-111 | the goal is appended; earlier goals, their order and the score are unchanged |
| EternalQuest.EternalQuestProgram.Find | prove/Develop05/Program.cs:115 | the goal returned is the first goal with the name that is not completed; null iff there is none |
| EternalQuest.EternalQuestProgram.RecordEvent | prove/Develop05/Program.cs:113-125 | the goals and score become `Record` of the old ones; found iff an open goal with that name existed |
| EternalQuest.EternalQuestProgram.ShowGoals | prove/Develop05/Program.cs:127-133 | one progress line per goal, in order, with the label of its class |
| EternalQuest.EternalQuestProgram.SaveGoals | prove/Develop05/Program.cs:140-149 | the lines written are `SaveLines` of the goals |
| EternalQuest.EternalQuestProgram.LoadGoals | prove/Develop05/Program.cs:151-185 | the list becomes the goals of the longest run of loadable lines from the start; complete iff every line loaded; the score is untouched |
| Orders.Address.IsUSA | final/Foundation2/Program.cs:22-25 | only a three-letter country can be the USA, and "usa", "USA" and "Usa" are |
| Orders.IsUSALetters | final/Foundation2/Program.cs:22-25 | an address is in the USA iff its country is "usa" in any mix of cases |
| Orders.Address.GetFullAddress | final/Foundation2/Program.cs:27-30 | the street, "city, state" and the country, joined by newlines |
| Orders.Customer.IsUSACustomer | final/Foundation2/Program.cs:54-57 | true iff the customer's country is three letters spelling "usa" in any mix of cases |
| Orders.Product.GetTotalCost | final/Foundation2/Program.cs:95-98 | the cost is not negative when neither the price nor the quantity is |
| Orders.SubtotalAppend | final/Foundation2/Program.cs:130-134 | the subtotal of two runs of products is the sum of their subtotals |
| Orders.SubtotalNonNegative | final/Foundation2/Program.cs:130-134 | with no negative price or quantity, the subtotal is non-negative |
| Orders.OrderTotalFacts | final/Foundation2/Program.cs:128-138 | an empty order costs the shipping fee; more products add their subtotal; the fee is 5 iff the customer is in the USA and 35 iff not |
| Orders.PackingLabelIsJoin | final/Foundation2/Program.cs:140-148 | the packing label is the product lines joined by newlines, with a final newline |
| Orders.PackingLabelLines | final/Foundation2/Program.cs:140-148 | when no product name holds a newline, the label splits into one "Name: …, Product ID: …" line per product, in order, then an empty piece |
| Orders.ShippingLabelLines | final/Foundation2/Program.cs:150-154 | when no field holds a newline, the shipping label splits into the customer name line, "Address:", the street, "city, state" and the country |
| Orders.Order.constructor | final/Foundation2/Program.cs:106-110 | a new order has an empty product array |
| Orders.Order.AddProduct | final/Foundation2/Program.cs:112-116 | the products become a new array, the old products followed by the added one |
| Orders.Order.CalculateTotalCost | final/Foundation2/Program.cs:128-138 | the result is `OrderTotal` of the customer and the products |
| Orders.Order.GetShippingLabel | final/Foundation2/Program.cs:150-154 | when no field of the customer holds a newline, the label splits into the name line, "Address:", the street, "city, state" and the country |
| Orders.Order.GetPackingLabel | final/Foundation2/Program.cs:140-148 | the result is `PackingLabel` of the products |
| JournalApp.EntryLine | prove/Develop02/Program.cs:59 | the line is date, prompt and response joined by commas, and splits at the commas of all three fields, in that order |
| JournalApp.ParseEntryLine | prove/Develop02/Program.cs:69-73 | a line loads iff it has at least 3 fields; then date, prompt and response are fields 0, 1 and 2 |
| JournalApp.SaveLines | prove/Develop02/Program.cs:57-60 | one `date,prompt,response` line per entry, in order |
| JournalApp.EntryRoundTrip | prove/Develop02/Program.cs:53-75 | a saved entry always loads, and loads as the same entry iff none of its fields holds a comma |
| JournalApp.SaveThenLoad | prove/Develop02/Program.cs:53-75 | loading a saved journal gets through every line and gives back the entries iff no field holds a comma |
| JournalApp.Journal.constructor | prove/Develop02/Program.cs:28-31 | a new journal has no entries |
| JournalApp.Journal.WriteEntry | prove/Develop02/Program.cs:33-40 | one entry holding the prompt, response and date is appended |
| JournalApp.Journal.SaveJournalToFile | prove/Develop02/Program.cs:53-63 | the lines written are `SaveLines` of the entries |
| JournalApp.Journal.LoadJournalFromFile | prove/Develop02/Program.cs:65-75 | the entries become those of the longest run of loadable lines; complete iff every line loaded |
| ScriptureDrill.ScriptureWord.constructor | prove/Develop03/Program.cs:13-17 | a new word holds its text and is visible |
| ScriptureDrill.ScriptureWord.ToggleHiddenState | prove/Develop03/Program.cs:19-22 | the hidden flag is flipped |
| ScriptureDrill.ToggleTwiceRestores | prove/Develop03/Program.cs:19-22 | two toggles restore the flag |
| ScriptureDrill.NewReference | prove/Develop03/Program.cs:33-39 | the end verse is the start verse when the end verse given is 0, and the one given otherwise |
| ScriptureDrill.Shuffled | prove/Develop03/Program.cs:150-161 | the shuffle keeps the length, leaves every item past the first `n` in place, and leaves fewer than two items as they are |
| ScriptureDrill.ShuffledIsPermutation | prove/Develop03/Program.cs:150-161 | whatever the generator returns, the shuffle keeps the length and yields a permutation |
| ScriptureDrill.ShuffledKeepsDistinct | prove/Develop03/Program.cs:150-161 | a list of distinct items stays distinct when shuffled |
| ScriptureDrill.Shuffle | prove/Develop03/Program.cs:150-161 | the array becomes `Shuffled` of its old contents, a permutation of them |
| ScriptureDrill.TextsShuffled | prove/Develop03/Program.cs:89 | shuffling the words shuffles their texts the same way |
| ScriptureDrill.ToggleCount | prove/Develop03/Program.cs:92 | the number of words toggled is min(n, count), and 0 for a negative n |
| ScriptureDrill.ShuffledWords | prove/Develop03/Program.cs:89 | shuffling a list of distinct words keeps them distinct, takes every word from the list and keeps their texts as a multiset |
| ScriptureDrill.NewWords | prove/Develop03/Program.cs:54-60 | one new visible word per text, in order, all distinct |
| ScriptureDrill.Scripture.constructor | prove/Develop03/Program.cs:48-61 | one new visible word per space-separated piece of the text, in order, whose texts joined by spaces give back the text |
| ScriptureDrill.Scripture.HideRandomWords | prove/Develop03/Program.cs:84-96 | the list is shuffled, the first min(max(n,0), count) words have their flag flipped (which can re-show a hidden word), the rest are unchanged, and the texts are kept as a multiset |
| ScriptureDrill.Scripture.ShuffleWords | prove/Develop03/Program.cs:89 | the list becomes `Shuffled` of the old list; the words stay distinct, each was in the old list, and their texts are kept as a multiset |
| ScriptureDrill.Scripture.ToggleFirst | prove/Develop03/Program.cs:92-95 | exactly the words at the first `count` positions are toggled |
| ScriptureDrill.Scripture.AllWordsHidden | prove/Develop03/Program.cs:99-109 | true iff every word is hidden |
| ScriptureMemorizer.WordsOf | Scripture.cs:14-18 | one visible word per piece, in order |
| ScriptureMemorizer.Scripture.constructor | Scripture.cs:9-19 | the words are one visible word per space-separated piece of the text, so there is always at least one |
| ScriptureMemorizer.HideAll | Scripture.cs:24-28 | hiding never changes the number of words |
| ScriptureMemorizer.HiddenWords | Scripture.cs:24-28 | after hiding, every text is kept; a word is hidden iff it was or its index was drawn; words at undrawn indices are untouched |
| ScriptureMemorizer.Scripture.HideRandomWords | Scripture.cs:21-29 | the words become `HideAll` of the old words at the max(n,0) indices drawn, each in [0, count) |
| ScriptureMemorizer.Padded | Scripture.cs:33-37 | the untrimmed text is empty iff there are no words, is at least one character per word, and ends in a space otherwise |
| ScriptureMemorizer.PaddedIsJoin | Scripture.cs:33-37 | the text built before trimming is the renderings joined by spaces, plus one space |
| ScriptureMemorizer.DisplayIsJoin | Scripture.cs:31-39 | when the first and last renderings have no white space at their outer ends, the display text is the renderings joined by single spaces |
| ScriptureMemorizer.Scripture.GetDisplayText | Scripture.cs:31-39 | the result is each rendering followed by a space, concatenated in order, then trimmed |
| ScriptureMemorizer.Scripture.IsCompletelyHidden | Scripture.cs:41-51 | true iff every word is hidden |

## Left out

- The `Main` menu loops, console input and output, `Console.Clear` and the printed messages are not modelled. `ShowGoals` returns its lines instead of printing them.
- `ShowScore`, `DisplayEntries` and `DisplayScripture` only print, so they are not modelled.
- `prove/Develop04/Program.cs` is not part of this model: it is built on timers, the clock and console input.
- A missing file is not modelled. `LoadGoals` and `LoadJournalFromFile` clear the list and then throw when the file does not exist (`prove/Develop05/Program.cs:153-154`, `prove/Develop02/Program.cs:67-68`), and nothing catches the exception. So the goal tracker's first run stops at start-up, where `Main` calls `LoadGoals("goals.txt")` (`prove/Develop05/Program.cs:195`). The model's loads take the file's lines and always succeed in opening them.
- Files are modelled as sequences of lines. A newline inside a saved field would split it into two lines, and that is not modelled.
- `System.Random` becomes the values it returns. Uniformity of the shuffle and of the drawn indices cannot be stated; only the range of each draw is.
- `DateTime.Now` and `Console.ReadLine` in `WriteEntry` become the `date` and `response` parameters.
- The `Word` and `Reference` classes used by `Scripture.cs` are not part of this model.
  - A word is its text and a hidden flag; a new word is taken to be visible, and `Hide` to set the flag only.
  - `Word.GetDisplayText` is a parameter of `GetDisplayText`.
  - The `_reference` field is not modelled.
- EternalQuest.Record: the score and `timesCompleted` are 32-bit `int`s in C#, which wrap around on overflow; the model's integers are unbounded.
- Orders.Product.GetTotalCost: `decimal` amounts are exact reals, so the `OverflowException` beyond the `decimal` range and rounding past 28 digits are not modelled.
- `int.Parse` and `bool.Parse` are modelled without surrounding white space, culture-specific signs or digit groups. `int.Parse` takes an optional leading `-` or `+`.
- `ToLower` lowers only the ASCII capitals A–Z; the culture-sensitive lowering of other letters is not modelled.
- EternalQuest.EternalQuestProgram.AddGoal: the goal object must not already be in the list. Adding one object twice, so that marking one entry marks the other, is not modelled.
- The `goals.Find` lambda and the polymorphic dispatch of `MarkComplete` and `ShowProgress` are modelled by one `Goal` class that holds its C# class as a constant.
