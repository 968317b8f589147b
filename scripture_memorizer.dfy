/** The second scripture memoriser: a scripture holds a list of words, hides
    randomly chosen ones (an index may be chosen again, and nothing is ever
    shown again) and renders the words separated by spaces. The `Word` class
    is not part of this model: a word is its text and whether it is hidden,
    and how a word renders is a parameter. */
module ScriptureMemorizer {
  import opened Text

  datatype Word = Word(text: string, hidden: bool)
  {
    function Hide(): Word
    {
      Word(text, true)
    }

    function IsHidden(): bool
    {
      hidden
    }
  }

  /** The words the constructor builds from the pieces of a text. */
  function WordsOf(pieces: seq<string>): (ws: seq<Word>)
    ensures |ws| == |pieces|
    ensures forall i | 0 <= i < |ws| :: ws[i] == Word(pieces[i], false)
  {
    if |pieces| == 0 then [] else WordsOf(pieces[..|pieces| - 1]) + [Word(pieces[|pieces| - 1], false)]
  }

  /** The words after hiding the one at each index of `indices`, in turn. */
  function HideAll(ws: seq<Word>, indices: seq<int>): (r: seq<Word>)
    requires forall j | 0 <= j < |indices| :: 0 <= indices[j] < |ws|
    ensures |r| == |ws|
  {
    if |indices| == 0 then ws
    else
      var before := HideAll(ws, indices[..|indices| - 1]);
      var k := indices[|indices| - 1];
      before[k := before[k].Hide()]
  }

  /** Hiding keeps the number of words and every text; a word is hidden
      afterwards exactly when it was hidden before or its index was drawn, and
      a word whose index was not drawn is untouched. */
  lemma {:induction false} HiddenWords(ws: seq<Word>, indices: seq<int>)
    requires forall j | 0 <= j < |indices| :: 0 <= indices[j] < |ws|
    ensures forall i | 0 <= i < |ws| :: HideAll(ws, indices)[i].text == ws[i].text
    ensures forall i | 0 <= i < |ws| :: HideAll(ws, indices)[i].hidden <==> ws[i].hidden || i in indices
    ensures forall i | 0 <= i < |ws| && i !in indices :: HideAll(ws, indices)[i] == ws[i]
  {
    if |indices| > 0 {
      var init := indices[..|indices| - 1];
      HiddenWords(ws, init);
      forall i | 0 <= i < |ws| ensures i in indices <==> i in init || i == indices[|indices| - 1] {
        assert indices == init + [indices[|indices| - 1]];
      }
    }
  }

  /** Each word's rendering, in order. */
  function Renders(ws: seq<Word>, display: Word -> string): (r: seq<string>)
    ensures |r| == |ws|
    ensures forall i | 0 <= i < |ws| :: r[i] == display(ws[i])
  {
    if |ws| == 0 then [] else Renders(ws[..|ws| - 1], display) + [display(ws[|ws| - 1])]
  }

  /** The text `GetDisplayText` builds before trimming: each rendering followed
      by a space. */
  function Padded(ws: seq<Word>, display: Word -> string): (r: string)
    ensures |r| >= |ws|
    ensures r == "" <==> |ws| == 0
    ensures |ws| > 0 ==> r[|r| - 1] == ' '
  {
    if |ws| == 0 then "" else Padded(ws[..|ws| - 1], display) + display(ws[|ws| - 1]) + " "
  }

  /** For at least one word, the untrimmed text is the renderings joined by
      spaces, plus one space. */
  lemma {:induction false} PaddedIsJoin(ws: seq<Word>, display: Word -> string)
    requires |ws| >= 1
    ensures Padded(ws, display) == Join(Renders(ws, display), ' ') + " "
  {
    if |ws| == 1 {
      assert Padded(ws[..0], display) == "";
      assert Renders(ws, display) == [display(ws[0])];
    } else {
      PaddedIsJoin(ws[..|ws| - 1], display);
      PaddedStep(ws, display);
    }
  }

  /** The inductive step of `PaddedIsJoin`: one more word appends its
      rendering after a space. */
  lemma PaddedStep(ws: seq<Word>, display: Word -> string)
    requires |ws| >= 2
    requires var init := ws[..|ws| - 1];
      Padded(init, display) == Join(Renders(init, display), ' ') + " "
    ensures Padded(ws, display) == Join(Renders(ws, display), ' ') + " "
  {
    var init := ws[..|ws| - 1];
    var last := display(ws[|ws| - 1]);
    JoinSnoc(Renders(init, display), last, ' ');
    assert Renders(ws, display) == Renders(init, display) + [last];
    var j := Join(Renders(init, display), ' ');
    calc {
      Padded(ws, display);
      j + " " + last + " ";
      (j + [' '] + last) + " ";
      Join(Renders(ws, display), ' ') + " ";
    }
  }

  lemma {:induction false} JoinFirst(parts: seq<string>, sep: char)
    requires |parts| >= 1 && |parts[0]| >= 1
    ensures |Join(parts, sep)| >= 1 && Join(parts, sep)[0] == parts[0][0]
  {
    if |parts| > 1 {
      assert Join(parts, sep) == parts[0] + [sep] + Join(parts[1..], sep);
    }
  }

  lemma {:induction false} JoinLast(parts: seq<string>, sep: char)
    requires |parts| >= 1 && |parts[|parts| - 1]| >= 1
    ensures var j, p := Join(parts, sep), parts[|parts| - 1];
      |j| >= 1 && j[|j| - 1] == p[|p| - 1]
  {
    if |parts| > 1 {
      JoinLast(parts[1..], sep);
      assert Join(parts, sep) == parts[0] + [sep] + Join(parts[1..], sep);
    }
  }

  lemma TrimEndSpace(s: string)
    ensures TrimEnd(s + " ") == TrimEnd(s)
  {
    assert (s + " ")[..|s|] == s;
  }

  /** When the first rendering does not start and the last does not end with
      white space, the display text is the renderings joined by single spaces. */
  lemma DisplayIsJoin(ws: seq<Word>, display: Word -> string)
    requires |ws| >= 1
    requires var first, last := display(ws[0]), display(ws[|ws| - 1]);
      |first| >= 1 && !IsWhiteSpace(first[0]) && |last| >= 1 && !IsWhiteSpace(last[|last| - 1])
    ensures Trim(Padded(ws, display)) == Join(Renders(ws, display), ' ')
  {
    PaddedIsJoin(ws, display);
    var rs := Renders(ws, display);
    var j := Join(rs, ' ');
    JoinFirst(rs, ' ');
    JoinLast(rs, ' ');
    TrimPadded(j);
  }

  /** Text that neither starts nor ends with white space is what trimming it
      with one trailing space leaves. */
  lemma TrimPadded(j: string)
    requires |j| >= 1 && !IsWhiteSpace(j[0]) && !IsWhiteSpace(j[|j| - 1])
    ensures Trim(j + " ") == j
  {
    TrimEndSpace(j);
    assert TrimEnd(j) == j;
  }

  class Scripture {
    var words: seq<Word>

    /** `Split` always yields a piece, so a scripture always has a word. */
    ghost predicate Valid()
      reads this
    {
      |words| >= 1
    }

    /** One visible word per space-separated piece of `text`, in order. */
    constructor (text: string)
      ensures Valid()
      ensures words == WordsOf(Split(text, ' '))
    {
      var wordArray := Split(text, ' ');
      var list: seq<Word> := [];
      for i := 0 to |wordArray|
        invariant list == WordsOf(wordArray[..i])
      {
        assert wordArray[..i + 1][..i] == wordArray[..i];
        list := list + [Word(wordArray[i], false)];
      }
      assert wordArray[..|wordArray|] == wordArray;
      words := list;
    }

    /** `HideRandomWords(numberToHide)`: one draw of `random.Next(count)` per
        pass, `indices` listing them; the word at each drawn index is hidden. */
    method HideRandomWords(numberToHide: int, indices: seq<int>)
      requires Valid()
      requires |indices| == if numberToHide > 0 then numberToHide else 0
      requires forall j | 0 <= j < |indices| :: 0 <= indices[j] < |words|
      modifies this
      ensures Valid()
      ensures words == HideAll(old(words), indices)
    {
      ghost var start := words;
      var i := 0;
      while i < numberToHide
        invariant 0 <= i <= |indices|
        invariant words == HideAll(start, indices[..i])
      {
        var index := indices[i];
        assert indices[..i + 1][..i] == indices[..i];
        words := words[index := words[index].Hide()];
        i := i + 1;
      }
      assert indices[..i] == indices;
    }

    /** `GetDisplayText`, with `display` as `Word.GetDisplayText`. */
    method GetDisplayText(display: Word -> string) returns (text: string)
      ensures text == Trim(Padded(words, display))
    {
      var displayText := "";
      for i := 0 to |words|
        invariant displayText == Padded(words[..i], display)
      {
        assert words[..i + 1][..i] == words[..i];
        displayText := displayText + display(words[i]) + " ";
      }
      assert words[..|words|] == words;
      text := Trim(displayText);
    }

    /** `IsCompletelyHidden`. */
    method IsCompletelyHidden() returns (all: bool)
      ensures all <==> forall i | 0 <= i < |words| :: words[i].IsHidden()
    {
      for i := 0 to |words|
        invariant forall k | 0 <= k < i :: words[k].IsHidden()
      {
        if !words[i].IsHidden() {
          return false;
        }
      }
      return true;
    }
  }
}
