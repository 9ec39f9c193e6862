/** The interactive translator's session state: the two language selections
    and the translation history, with the swap button, the two selectors,
    the Translate button and the Clear History button as the operations that
    change it. */
module Interactive {
  import opened Wrappers
  import opened Catalog
  import opened Resolver

  /** The target selection a new session starts with. */
  const DEFAULT_TARGET: string := "urdu"

  /** One row of the history: the input, its translation, the two selector
      labels at the time, and a timestamp supplied by the clock. */
  datatype HistoryEntry = HistoryEntry(
    original: string,
    translated: string,
    source: string,
    target: string,
    timestamp: string)

  /** The history as it is displayed: the most recent translation first. */
  function NewestFirst(h: seq<HistoryEntry>): (r: seq<HistoryEntry>)
    ensures |r| == |h|
    ensures forall i | 0 <= i < |h| :: r[i] == h[|h| - 1 - i]
    decreases |h|
  {
    if h == [] then [] else [h[|h| - 1]] + NewestFirst(h[..|h| - 1])
  }

  /** Appending a translation puts it at the head of the displayed history,
      in front of everything shown before. */
  lemma NewestFirstAppend(h: seq<HistoryEntry>, e: HistoryEntry)
    ensures NewestFirst(h + [e]) == [e] + NewestFirst(h)
  {
  }

  /** The display does not disturb the insertion order: reversing the view
      gives the history back. */
  lemma NewestFirstInvolution(h: seq<HistoryEntry>)
    ensures NewestFirst(NewestFirst(h)) == h
  {
  }

  /** The swap policy on a (source, target) selection: the new source is the
      old target; the old source becomes the target unless it is the
      detection pseudo-language, in which case the target stays. */
  function Swapped(source: string, target: string): (r: (string, string))
    ensures r.0 == target
    ensures r.1 == source || r.1 == target
    ensures target != AUTO_LABEL ==> r.1 != AUTO_LABEL
  {
    if source != AUTO_LABEL then (target, source) else (target, target)
  }

  /** A selection both selectors can show: the source is an option of the
      source selector and the target one of the target selector. */
  predicate ValidSelection(c: seq<Entry>, source: string, target: string)
  {
    source in SourceOptions(c) && target in TargetOptions(c)
  }

  /** Swapping never leaves the selectors' domains; in particular the target
      never becomes the pseudo-language. */
  lemma SwapKeepsSelectionValid(c: seq<Entry>, source: string, target: string)
    requires ValidSelection(c, source, target)
    ensures ValidSelection(c, Swapped(source, target).0, Swapped(source, target).1)
    ensures AUTO_LABEL !in Names(c) ==> Swapped(source, target).1 != AUTO_LABEL
  {
  }

  /** With a real target, swapping twice restores a pair whose source is a
      real language; from the pseudo-language the first swap already reaches
      a fixed point. */
  lemma SwapTwice(source: string, target: string)
    requires target != AUTO_LABEL
    ensures var (s1, t1) := Swapped(source, target);
      Swapped(s1, t1) == if source != AUTO_LABEL then (source, target) else (target, target)
  {
  }

  /** A new session's selection is valid whenever the catalog offers the
      default target. */
  lemma InitialSelectionValid(c: seq<Entry>)
    requires DEFAULT_TARGET in Names(c)
    ensures ValidSelection(c, AUTO_LABEL, DEFAULT_TARGET)
  {
  }

  class Session {
    var sourceLang: string
    var targetLang: string
    var history: seq<HistoryEntry>

    /** The selections are ones the two selectors of catalog `c` offer. */
    ghost predicate Valid(c: seq<Entry>)
      reads this
    {
      ValidSelection(c, sourceLang, targetLang)
    }

    /** A fresh session: detect the source, translate into the default
        target, nothing translated yet. */
    constructor ()
      ensures sourceLang == AUTO_LABEL && targetLang == DEFAULT_TARGET && history == []
    {
      sourceLang := AUTO_LABEL;
      targetLang := DEFAULT_TARGET;
      history := [];
    }

    /** The source selector: the user picks one of its options. */
    method ChooseSource(c: seq<Entry>, name: string)
      requires Valid(c) && name in SourceOptions(c)
      modifies this
      ensures Valid(c)
      ensures sourceLang == name && targetLang == old(targetLang) && history == old(history)
    {
      sourceLang := name;
    }

    /** The target selector: the user picks one of its options. */
    method ChooseTarget(c: seq<Entry>, name: string)
      requires Valid(c) && name in TargetOptions(c)
      modifies this
      ensures Valid(c)
      ensures targetLang == name && sourceLang == old(sourceLang) && history == old(history)
    {
      targetLang := name;
    }

    /** The swap button. */
    method Swap()
      modifies this
      ensures (sourceLang, targetLang) == Swapped(old(sourceLang), old(targetLang))
      ensures sourceLang == old(targetLang)
      ensures targetLang == if old(sourceLang) != AUTO_LABEL then old(sourceLang) else old(targetLang)
      ensures old(targetLang) != AUTO_LABEL ==> targetLang != AUTO_LABEL
      ensures history == old(history)
      ensures forall c: seq<Entry> :: old(Valid(c)) ==> Valid(c)
    {
      var source, target := sourceLang, targetLang;
      sourceLang := target;
      if source != AUTO_LABEL {
        targetLang := source;
      }
      forall c: seq<Entry> | old(Valid(c)) ensures Valid(c) {
        SwapKeepsSelectionValid(c, source, target);
      }
    }

    /** The Translate button: the two labels are turned into codes, the
        request is resolved, and a translation with non-empty text is
        appended to the history with the labels and the given timestamp.
        The outcome is returned for display; the selections do not change. */
    method Translate(c: seq<Entry>, p: Provider, input: string, timestamp: string) returns (outcome: Option<Translation>)
      requires Valid(c)
      modifies this
      ensures Valid(c) && sourceLang == old(sourceLang) && targetLang == old(targetLang)
      ensures outcome == Resolve(p, input, LangCodes(c)[sourceLang], LangCodes(c)[targetLang]).result
      ensures HasText(outcome) ==>
        history == old(history) + [HistoryEntry(input, outcome.value.text, sourceLang, targetLang, timestamp)]
      ensures !HasText(outcome) ==> history == old(history)
    {
      var codes := LangCodes(c);
      var srcCode := codes[sourceLang];
      var destCode := codes[targetLang];
      outcome := Resolve(p, input, srcCode, destCode).result;
      if HasText(outcome) {
        history := history + [HistoryEntry(input, outcome.value.text, sourceLang, targetLang, timestamp)];
      }
    }

    /** The Clear History button. */
    method ClearHistory()
      modifies this
      ensures history == [] && NewestFirst(history) == []
      ensures sourceLang == old(sourceLang) && targetLang == old(targetLang)
    {
      history := [];
    }
  }

  /** A translation request issued from a valid selection never asks the
      provider to translate into the detection sentinel: the target code is
      a real catalog code. */
  lemma TargetCodeIsReal(c: seq<Entry>, source: string, target: string)
    requires WellFormed(c) && ValidSelection(c, source, target)
    ensures source in LangCodes(c) && target in LangCodes(c)
    ensures LangCodes(c)[target] in Codes(c) && LangCodes(c)[target] != AUTO_CODE
  {
    OptionsHaveCodes(c);
  }
}
