/**
 * The word history of the documentation search command (JuliaSearchDocumentationCommand in
 * plugin.py): a back stack bounded to 100 words, an unbounded forward stack and the word shown
 * now. The pseudo-words "__back" and "__forward" move through the history; every other word is
 * a new query.
 */
module DocHistory {
  import opened Optional

  /** The bound of the back stack (a deque with maxlen 100). */
  const MaxBack: nat := 100

  const BackWord: string := "__back"
  const ForwardWord: string := "__forward"

  /** The top of each stack is its last element. */
  datatype History = History(back: seq<string>, forward: seq<string>, current: Option<string>)

  /**
   * The back stack stays within its bound, and a non-empty stack implies a current word: a
   * word is only ever pushed after some query made it current, and nothing resets it.
   */
  ghost predicate ValidHistory(h: History) {
    |h.back| <= MaxBack && (h.back != [] || h.forward != [] ==> h.current.Some?)
  }

  /** The history before the first search. */
  function Initial(): (h: History)
    ensures ValidHistory(h) && h.current.None?
  {
    History([], [], None)
  }

  /**
   * Appending to the bounded back stack: when it is full, the oldest entry (index 0) falls out.
   */
  function PushBack(xs: seq<string>, x: string): (r: seq<string>)
    requires |xs| <= MaxBack
    ensures |r| <= MaxBack && r != [] && r[|r| - 1] == x
    ensures |xs| < MaxBack ==> r == xs + [x]
    ensures |xs| == MaxBack ==> |r| == MaxBack && r[..|r| - 1] == xs[1..]
  {
    if |xs| < MaxBack then xs + [x] else xs[1..] + [x]
  }

  /**
   * The new history and the word sent to the server (None when the command returns early
   * because the stack to pop is empty) after the command is run with `word`.
   */
  function Search(h: History, word: string): (r: (History, Option<string>))
    requires ValidHistory(h)
    ensures ValidHistory(r.0)
    ensures r.1.None? <==> (word == BackWord && h.back == []) || (word == ForwardWord && h.forward == [])
    ensures r.1.None? ==> r.0 == h
    ensures r.1.Some? ==> r.0.current == r.1
    // Back: the top of the back stack becomes current; the old current goes on the forward stack.
    ensures word == BackWord && h.back != [] ==>
              && r.1 == Some(h.back[|h.back| - 1])
              && r.0.back == h.back[..|h.back| - 1]
              && r.0.forward == h.forward + [h.current.value]
    // Forward: the top of the forward stack becomes current; the old current goes on the back stack.
    ensures word == ForwardWord && h.forward != [] ==>
              && r.1 == Some(h.forward[|h.forward| - 1])
              && r.0.forward == h.forward[..|h.forward| - 1]
              && r.0.back == PushBack(h.back, h.current.value)
    // Any other word is queried; only a different word changes the stacks.
    ensures word != BackWord && word != ForwardWord ==> r.1 == Some(word)
    ensures word != BackWord && word != ForwardWord && h.current.Some? && h.current.value != word ==>
              r.0 == History(PushBack(h.back, h.current.value), [], Some(word))
    ensures word != BackWord && word != ForwardWord && (h.current.None? || h.current.value == word) ==>
              r.0.back == h.back && r.0.forward == h.forward
  {
    if word == BackWord then
      if h.back == [] then (h, None)
      else
        var w := h.back[|h.back| - 1];
        (History(h.back[..|h.back| - 1], h.forward + [h.current.value], Some(w)), Some(w))
    else if word == ForwardWord then
      if h.forward == [] then (h, None)
      else
        var w := h.forward[|h.forward| - 1];
        (History(PushBack(h.back, h.current.value), h.forward[..|h.forward| - 1], Some(w)), Some(w))
    else if h.current.Some? && h.current.value != word then
      (History(PushBack(h.back, h.current.value), [], Some(word)), Some(word))
    else
      (h.(current := Some(word)), Some(word))
  }

  /** Going back and then forward returns to the same history. */
  lemma BackThenForward(h: History)
    requires ValidHistory(h) && h.back != []
    ensures Search(Search(h, BackWord).0, ForwardWord).0 == h
  {
  }

  /**
   * Going forward and then back returns to the same history while the back stack has room;
   * with a full back stack the round trip loses the oldest entry and nothing else.
   */
  lemma ForwardThenBack(h: History)
    requires ValidHistory(h) && h.forward != []
    ensures |h.back| < MaxBack ==> Search(Search(h, ForwardWord).0, BackWord).0 == h
    ensures |h.back| == MaxBack ==> Search(Search(h, ForwardWord).0, BackWord).0 == h.(back := h.back[1..])
  {
  }

  /** Repeating the current word re-sends the query and leaves the history as it is. */
  lemma SameWordKeepsHistory(h: History, word: string)
    requires ValidHistory(h) && h.current == Some(word) && word != BackWord && word != ForwardWord
    ensures Search(h, word) == (h, Some(word))
  {
  }

  /**
   * After a new, different word the words that were ahead are gone: the forward stack is empty,
   * so "__forward" does nothing, and "__back" returns to the word that was current.
   */
  lemma NewWordDropsForward(h: History, word: string)
    requires ValidHistory(h) && h.current.Some? && h.current.value != word
    requires word != BackWord && word != ForwardWord
    ensures var h1 := Search(h, word).0;
      && h1.forward == []
      && h1.back[|h1.back| - 1] == h.current.value
      && Search(h1, ForwardWord) == (h1, None)
      && Search(h1, BackWord).1 == h.current
  {
  }

  /** The command object's history fields, updated in place by `Run`. */
  class SearchDocumentation {
    var lastWords: seq<string>
    var nextWords: seq<string>
    var currentWord: Option<string>

    function Abs(): History
      reads this
    {
      History(lastWords, nextWords, currentWord)
    }

    ghost predicate Valid()
      reads this
    {
      ValidHistory(Abs())
    }

    constructor ()
      ensures Valid() && Abs() == Initial()
    {
      lastWords := [];
      nextWords := [];
      currentWord := None;
    }

    /** Runs the command with `word`; returns the word to request, or None on an early return. */
    method Run(word: string) returns (query: Option<string>)
      requires Valid()
      modifies this
      ensures Valid()
      ensures (Abs(), query) == Search(old(Abs()), word)
    {
      if word == BackWord {
        if lastWords == [] {
          return None;
        }
        var w := lastWords[|lastWords| - 1];
        lastWords := lastWords[..|lastWords| - 1];
        nextWords := nextWords + [currentWord.value];
        currentWord := Some(w);
        query := Some(w);
      } else if word == ForwardWord {
        if nextWords == [] {
          return None;
        }
        var w := nextWords[|nextWords| - 1];
        nextWords := nextWords[..|nextWords| - 1];
        lastWords := PushBack(lastWords, currentWord.value);
        currentWord := Some(w);
        query := Some(w);
      } else {
        if currentWord.Some? && currentWord.value != word {
          lastWords := PushBack(lastWords, currentWord.value);
          nextWords := [];
        }
        currentWord := Some(word);
        query := Some(word);
      }
    }
  }
}
