/** The journal: a list of entries (prompt, response, date), appended to one at
    a time, saved one `date,prompt,response` line per entry and loaded back by
    splitting each line at its commas. */
module JournalApp {
  import opened Wrappers
  import opened Text
  import opened LineFiles

  datatype JournalEntry = JournalEntry(prompt: string, response: string, date: string)

  /** The line `SaveJournalToFile` writes for an entry: its fields joined by
      commas, so that it splits at the commas of all three fields. */
  function EntryLine(e: JournalEntry): (line: string)
    ensures line == Join([e.date, e.prompt, e.response], ',')
    ensures Split(line, ',') == Split(e.date, ',') + Split(e.prompt, ',') + Split(e.response, ',')
  {
    var line := e.date + "," + e.prompt + "," + e.response;
    JoinThree(e.date, e.prompt, e.response, ',');
    SplitThree(e.date, e.prompt, e.response, ',');
    line
  }

  lemma JoinThree(a: string, b: string, c: string, sep: char)
    ensures Join([a, b, c], sep) == a + [sep] + b + [sep] + c
  {
    var fields := [a, b, c];
    assert fields[1..][1..] == [c];
    assert Join(fields[1..], sep) == b + [sep] + c;
  }

  lemma SplitThree(a: string, b: string, c: string, sep: char)
    ensures Split(a + [sep] + b + [sep] + c, sep) == Split(a, sep) + Split(b, sep) + Split(c, sep)
  {
    assert a + [sep] + b + [sep] + c == a + [sep] + (b + [sep] + c);
    SplitAppend(a, b + [sep] + c, sep);
    SplitAppend(b, c, sep);
  }

  /** One line of `LoadJournalFromFile`: field 0 is the date, 1 the prompt and 2
      the response, further fields are dropped; `None` where the C# code throws
      (fewer than three fields, so `parts[1]` or `parts[2]` is out of range). */
  function ParseEntryLine(line: string): (r: Option<JournalEntry>)
    ensures r.Some? <==> |Split(line, ',')| >= 3
    ensures r.Some? ==> var parts := Split(line, ',');
      r.value == JournalEntry(parts[1], parts[2], parts[0])
  {
    var parts := Split(line, ',');
    if |parts| < 3 then None else Some(JournalEntry(parts[1], parts[2], parts[0]))
  }

  predicate CommaFree(e: JournalEntry)
  {
    ',' !in e.date && ',' !in e.prompt && ',' !in e.response
  }

  /** A saved entry always loads as an entry, and as the same entry exactly
      when none of its fields holds a comma. */
  lemma {:induction false} EntryRoundTrip(e: JournalEntry)
    ensures ParseEntryLine(EntryLine(e)).Some?
    ensures ParseEntryLine(EntryLine(e)) == Some(e) <==> CommaFree(e)
  {
    var line := EntryLine(e);
    var parts := Split(line, ',');
    assert |parts| >= 3;
    if CommaFree(e) {
      SplitJoin([e.date], ',');
      SplitJoin([e.prompt], ',');
      SplitJoin([e.response], ',');
      assert parts == [e.date, e.prompt, e.response];
    }
  }

  /** The lines `SaveJournalToFile` writes, one per entry in order. */
  function SaveLines(es: seq<JournalEntry>): (lines: seq<string>)
    ensures |lines| == |es|
    ensures forall i | 0 <= i < |es| :: lines[i] == EntryLine(es[i])
  {
    seq(|es|, i requires 0 <= i < |es| => EntryLine(es[i]))
  }

  /** Saving and loading a journal always gets through every line, and gives
      back the same entries exactly when no field of any entry holds a comma. */
  lemma {:induction false} SaveThenLoad(es: seq<JournalEntry>)
    ensures LoadLines(SaveLines(es), ParseEntryLine).complete
    ensures |LoadLines(SaveLines(es), ParseEntryLine).items| == |es|
    ensures LoadLines(SaveLines(es), ParseEntryLine).items == es
      <==> forall i | 0 <= i < |es| :: CommaFree(es[i])
  {
    var r := LoadLines(SaveLines(es), ParseEntryLine);
    forall i | 0 <= i < |es|
      ensures ParseEntryLine(SaveLines(es)[i]).Some?
      ensures ParseEntryLine(SaveLines(es)[i]) == Some(es[i]) <==> CommaFree(es[i])
    {
      EntryRoundTrip(es[i]);
    }
    if r.items == es {
      forall i | 0 <= i < |es| ensures CommaFree(es[i]) {
        assert ParseEntryLine(SaveLines(es)[i]) == Some(r.items[i]);
      }
    }
  }

  class Journal {
    var entries: seq<JournalEntry>

    constructor ()
      ensures entries == []
    {
      entries := [];
    }

    /** `WriteEntry`: the response read from the console and today's date are
        parameters. */
    method WriteEntry(prompt: string, response: string, date: string)
      modifies this
      ensures entries == old(entries) + [JournalEntry(prompt, response, date)]
    {
      entries := entries + [JournalEntry(prompt, response, date)];
    }

    /** `SaveJournalToFile`: the lines written to the file. */
    method SaveJournalToFile() returns (lines: seq<string>)
      ensures lines == SaveLines(entries)
    {
      lines := [];
      for i := 0 to |entries|
        invariant |lines| == i
        invariant forall k | 0 <= k < i :: lines[k] == EntryLine(entries[k])
      {
        var entry := entries[i];
        lines := lines + [entry.date + "," + entry.prompt + "," + entry.response];
      }
    }

    /** `LoadJournalFromFile`: clears the entries, then adds one per line until a
        line has fewer than three fields (where the C# code throws, leaving what
        it has added so far); `complete` is false in that case. */
    method LoadJournalFromFile(lines: seq<string>) returns (complete: bool)
      modifies this
      ensures LoadLines(lines, ParseEntryLine) == Loaded(entries, complete)
    {
      entries := [];
      for i := 0 to |lines|
        invariant |entries| == i
        invariant forall k | 0 <= k < i :: ParseEntryLine(lines[k]) == Some(entries[k])
      {
        var parts := Split(lines[i], ',');
        if |parts| < 3 {
          LoadLinesStopsAt(lines, ParseEntryLine, entries);
          return false;
        }
        entries := entries + [JournalEntry(parts[1], parts[2], parts[0])];
      }
      LoadLinesStopsAt(lines, ParseEntryLine, entries);
      return true;
    }
  }
}
