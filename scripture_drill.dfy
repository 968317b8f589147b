/** The scripture memorisation drill: a scripture is split into words, each of
    which can be hidden; each round shuffles the word list in place (Fisher–Yates)
    and toggles the hidden flag of the first words. The random generator is
    replaced by the sequence of values it returns. */
module ScriptureDrill {
  import opened Text

  class ScriptureWord {
    const word: string
    var hidden: bool

    constructor (word: string)
      ensures this.word == word && !hidden
    {
      this.word := word;
      hidden := false;
    }

    method ToggleHiddenState()
      modifies this
      ensures hidden == !old(hidden)
    {
      hidden := !hidden;
    }
  }

  /** Two toggles give back the flag a word had. */
  method ToggleTwiceRestores(w: ScriptureWord)
    modifies w
    ensures w.hidden == old(w.hidden)
  {
    w.ToggleHiddenState();
    w.ToggleHiddenState();
  }

  datatype ScriptureReference = ScriptureReference(book: string, chapter: int, startVerse: int, endVerse: int)

  /** The `ScriptureReference` constructor: an end verse of 0 (the default) makes
      a one-verse reference. */
  function NewReference(book: string, chapter: int, startVerse: int, endVerse: int := 0): (r: ScriptureReference)
    ensures r.book == book && r.chapter == chapter && r.startVerse == startVerse
    ensures endVerse == 0 ==> r.endVerse == r.startVerse
    ensures endVerse != 0 ==> r.endVerse == endVerse
  {
    ScriptureReference(book, chapter, startVerse, if endVerse == 0 then startVerse else endVerse)
  }

  // ---------------------------------------------------------------- shuffling

  function Swap<T>(s: seq<T>, i: nat, j: nat): seq<T>
    requires i < |s| && j < |s|
  {
    s[i := s[j]][j := s[i]]
  }

  /** The values `rng.Next(n + 1)` returns while `Shuffle` runs over `count`
      items: one per pass, the pass after `j` others drawing from `[0, count - 1 - j]`. */
  predicate ShuffleDraws(count: nat, draws: seq<int>)
  {
    && |draws| == (if count > 1 then count - 1 else 0)
    && forall j | 0 <= j < |draws| :: 0 <= draws[j] <= count - 1 - j
  }

  /** The order `Shuffle` leaves the first `n` items of `s` in: swap a drawn
      position with the last of them, then go on with one item fewer. */
  function Shuffled<T>(s: seq<T>, n: nat, draws: seq<int>): (r: seq<T>)
    requires n <= |s| && ShuffleDraws(n, draws)
    ensures |r| == |s|
    ensures forall k | n <= k < |s| :: r[k] == s[k]
    ensures n <= 1 ==> r == s
    decreases n
  {
    if n <= 1 then s else Shuffled(Swap(s, draws[0], n - 1), n - 1, draws[1..])
  }

  /** Whatever the generator returns, `Shuffle` only reorders: the result is a
      permutation of the input. */
  lemma {:induction false} ShuffledIsPermutation<T>(s: seq<T>, n: nat, draws: seq<int>)
    requires n <= |s| && ShuffleDraws(n, draws)
    ensures |Shuffled(s, n, draws)| == |s|
    ensures multiset(Shuffled(s, n, draws)) == multiset(s)
    decreases n
  {
    if n > 1 {
      var t := Swap(s, draws[0], n - 1);
      assert multiset(t) == multiset(s);
      ShuffledIsPermutation(t, n - 1, draws[1..]);
    }
  }

  /** Every item after shuffling was an item before. */
  lemma ShuffledMembers<T>(s: seq<T>, n: nat, draws: seq<int>)
    requires n <= |s| && ShuffleDraws(n, draws)
    ensures forall k | 0 <= k < |s| :: Shuffled(s, n, draws)[k] in s
  {
    var r := Shuffled(s, n, draws);
    ShuffledIsPermutation(s, n, draws);
    forall k | 0 <= k < |s| ensures r[k] in s {
      assert r[k] in multiset(r);
    }
  }

  predicate Distinct<T(==)>(s: seq<T>)
  {
    forall i, j | 0 <= i < j < |s| :: s[i] != s[j]
  }

  lemma {:induction false} ShuffledKeepsDistinct<T>(s: seq<T>, n: nat, draws: seq<int>)
    requires n <= |s| && ShuffleDraws(n, draws) && Distinct(s)
    ensures Distinct(Shuffled(s, n, draws))
    decreases n
  {
    if n > 1 {
      var t := Swap(s, draws[0], n - 1);
      assert Distinct(t) by {
        forall i, j | 0 <= i < j < |t| ensures t[i] != t[j] {
          var i' := if i == draws[0] then n - 1 else if i == n - 1 then draws[0] else i;
          var j' := if j == draws[0] then n - 1 else if j == n - 1 then draws[0] else j;
          assert t[i] == s[i'] && t[j] == s[j'] && i' != j';
        }
      }
      ShuffledKeepsDistinct(t, n - 1, draws[1..]);
    }
  }

  /** `ListExtensions.Shuffle`, on the list's backing array. */
  method Shuffle<T>(list: array<T>, draws: seq<int>)
    requires ShuffleDraws(list.Length, draws)
    modifies list
    ensures list[..] == Shuffled(old(list[..]), list.Length, draws)
    ensures multiset(list[..]) == multiset(old(list[..]))
  {
    var n := list.Length;
    var d := 0;
    while n > 1
      invariant 0 <= n <= list.Length && d + n == list.Length && d <= |draws|
      invariant ShuffleDraws(n, draws[d..])
      invariant Shuffled(list[..], n, draws[d..]) == Shuffled(old(list[..]), list.Length, draws)
    {
      ghost var before := list[..];
      n := n - 1;
      var k := draws[d];
      var value := list[k];
      list[k] := list[n];
      list[n] := value;
      assert list[..] == Swap(before, k, n);
      assert draws[d..][1..] == draws[d + 1..];
      d := d + 1;
    }
    ShuffledIsPermutation(old(list[..]), list.Length, draws);
  }

  // ---------------------------------------------------------------- the scripture

  /** The texts of a list of words (`word` is a constant field). */
  function Texts(ws: seq<ScriptureWord>): (r: seq<string>)
    ensures |r| == |ws|
    ensures forall i | 0 <= i < |ws| :: r[i] == ws[i].word
  {
    if |ws| == 0 then [] else Texts(ws[..|ws| - 1]) + [ws[|ws| - 1].word]
  }

  lemma {:induction false} TextsShuffled(ws: seq<ScriptureWord>, n: nat, draws: seq<int>)
    requires n <= |ws| && ShuffleDraws(n, draws)
    ensures Texts(Shuffled(ws, n, draws)) == Shuffled(Texts(ws), n, draws)
    decreases n
  {
    if n > 1 {
      var t := Swap(ws, draws[0], n - 1);
      assert Texts(t) == Swap(Texts(ws), draws[0], n - 1);
      TextsShuffled(t, n - 1, draws[1..]);
    }
  }

  /** Shuffling a list of distinct words keeps them distinct, draws each from
      the list, and keeps their texts as a multiset. */
  lemma ShuffledWords(ws: seq<ScriptureWord>, draws: seq<int>)
    requires Distinct(ws) && ShuffleDraws(|ws|, draws)
    ensures var r := Shuffled(ws, |ws|, draws);
      && Distinct(r)
      && (forall k | 0 <= k < |r| :: r[k] in ws)
      && multiset(Texts(r)) == multiset(Texts(ws))
  {
    ShuffledKeepsDistinct(ws, |ws|, draws);
    TextsShuffled(ws, |ws|, draws);
    ShuffledIsPermutation(Texts(ws), |ws|, draws);
    ShuffledMembers(ws, |ws|, draws);
  }

  /** How many words `HideRandomWords(n)` toggles: `Math.Min(n, count)`, and
      none for a negative `n`. */
  function ToggleCount(n: int, count: nat): (r: nat)
    ensures r <= count
    ensures n <= 0 ==> r == 0
    ensures 0 <= n <= count ==> r == n
    ensures n >= count ==> r == count
  {
    if n <= 0 then 0 else if n < count then n else count
  }

  /** The loop of the `Scripture` constructor: one new visible word per text. */
  method NewWords(texts: seq<string>) returns (list: seq<ScriptureWord>)
    ensures Texts(list) == texts && Distinct(list)
    ensures forall k | 0 <= k < |list| :: fresh(list[k]) && !list[k].hidden
  {
    list := [];
    for i := 0 to |texts|
      invariant |list| == i && Distinct(list)
      invariant forall k | 0 <= k < i :: fresh(list[k]) && list[k].word == texts[k] && !list[k].hidden
    {
      var word := new ScriptureWord(texts[i]);
      list := list + [word];
    }
  }

  /** A new array holding the items of `s`, in order. */
  method ArrayOf<T>(s: seq<T>) returns (a: array<T>)
    ensures fresh(a) && a[..] == s
  {
    a := new T[|s|](i requires 0 <= i < |s| => s[i]);
  }

  class Scripture {
    const reference: ScriptureReference
    const words: array<ScriptureWord>

    /** Each word object sits in the list once. */
    ghost predicate Valid()
      reads this, words
    {
      Distinct(words[..])
    }

    /** One visible word per space-separated piece of `text`, in order. */
    constructor (reference: ScriptureReference, text: string)
      ensures Valid() && this.reference == reference && fresh(words)
      ensures Texts(words[..]) == Split(text, ' ') && Join(Texts(words[..]), ' ') == text
      ensures forall i | 0 <= i < words.Length :: fresh(words[i]) && !words[i].hidden
    {
      this.reference := reference;
      var wordArray := Split(text, ' ');
      var list := NewWords(wordArray);
      var wordList := ArrayOf(list);
      words := wordList;
      JoinSplit(text, ' ');
    }

    /** `HideRandomWords(n)`: shuffle, then toggle the first `min(n, count)` words,
        which re-shows a word that was already hidden. */
    method HideRandomWords(numberOfWordsToHide: int, draws: seq<int>)
      requires Valid() && ShuffleDraws(words.Length, draws)
      modifies words, words[..]
      ensures Valid()
      ensures words[..] == Shuffled(old(words[..]), words.Length, draws)
      ensures forall i | 0 <= i < words.Length :: var w := words[i];
        w in old(words[..]) && w.hidden == if i < ToggleCount(numberOfWordsToHide, words.Length) then !old(w.hidden) else old(w.hidden)
      ensures multiset(Texts(words[..])) == multiset(Texts(old(words[..])))
    {
      ShuffleWords(draws);
      ghost var shuffled := words[..];
      var count := ToggleCount(numberOfWordsToHide, words.Length);
      label Toggling:
      ToggleFirst(count);
      forall i | 0 <= i < words.Length
        ensures var w := words[i]; w in old(words[..]) && w.hidden == if i < count then !old(w.hidden) else old(w.hidden)
      {
        var w := words[i];
        assert w == shuffled[i] && w in old(words[..]);
        assert w.hidden == if i < count then !old@Toggling(w.hidden) else old@Toggling(w.hidden);
        assert old@Toggling(w.hidden) == old(w.hidden);
      }
    }

    /** The `words.Shuffle()` call of `HideRandomWords`: the list is reordered,
        the word objects themselves are untouched. */
    method ShuffleWords(draws: seq<int>)
      requires Valid() && ShuffleDraws(words.Length, draws)
      modifies words
      ensures Valid()
      ensures words[..] == Shuffled(old(words[..]), words.Length, draws)
      ensures forall k | 0 <= k < words.Length :: words[k] in old(words[..])
      ensures multiset(Texts(words[..])) == multiset(Texts(old(words[..])))
    {
      Shuffle(words, draws);
      ShuffledWords(old(words[..]), draws);
    }

    /** The loop of `HideRandomWords`: the words at the first `count` positions
        are toggled, each once, and no other word changes. */
    method ToggleFirst(count: nat)
      requires Valid() && count <= words.Length
      modifies words[..]
      ensures Valid() && words[..] == old(words[..])
      ensures forall k | 0 <= k < words.Length ::
        words[k].hidden == if k < count then !old(words[k].hidden) else old(words[k].hidden)
    {
      for i := 0 to count
        invariant forall k | 0 <= k < words.Length ::
          words[k].hidden == if k < i then !old(words[k].hidden) else old(words[k].hidden)
      {
        words[i].ToggleHiddenState();
      }
    }

    /** `AllWordsHidden`. */
    method AllWordsHidden() returns (all: bool)
      ensures all <==> forall i | 0 <= i < words.Length :: words[i].hidden
    {
      for i := 0 to words.Length
        invariant forall k | 0 <= k < i :: words[k].hidden
      {
        if !words[i].hidden {
          return false;
        }
      }
      return true;
    }
  }
}
