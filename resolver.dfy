/** `perform_translation`: one request resolved against the external
    translation provider. The provider is a pair of total functions that
    answer `None` where the real service raises; the resolver records the
    calls it makes, so that "no call" and "detect first" can be stated. */
module Resolver {
  import opened Wrappers
  import opened Text
  import opened Catalog

  /** The external service: `detect(text)` gives a language code and
      `translate(text, src, dest)` the translated text; `None` stands for any
      exception the service raises. */
  datatype Provider = Provider(
    detect: string -> Option<string>,
    translate: (string, string, string) -> Option<string>)

  /** One round trip to the provider. */
  datatype Call = Detect(text: string) | Translate(text: string, src: string, dest: string)

  /** A successful resolution: the translated text and the source code it was
      translated from (the detected one when the request said "auto"). */
  datatype Translation = Translation(text: string, source: string)

  /** What the resolver returns, `None` for the `(None, None)` pair, and the
      provider calls it made, in order. */
  datatype Resolution = Resolution(result: Option<Translation>, calls: seq<Call>)

  /** What the provider answers to a call. */
  function Answer(p: Provider, call: Call): Option<string>
  {
    match call
    case Detect(t) => p.detect(t)
    case Translate(t, s, d) => p.translate(t, s, d)
  }

  /** Python truthiness of the translated text: present and non-empty. Both
      the history ledger and the batch driver test the result this way. */
  predicate HasText(o: Option<Translation>)
  {
    o.Some? && o.value.text != ""
  }

  /** Blank text is answered at once with no call. Otherwise, for the "auto"
      source the text is detected first and a failed detection ends the
      request; then the text is translated from the effective source. The
      request succeeds exactly when every call it made succeeded, and then
      returns what the last call, the translation, answered. */
  function Resolve(p: Provider, text: string, src: string, dest: string): (r: Resolution)
    ensures IsBlank(text) ==> r.result == None && r.calls == []
    ensures forall i | 0 <= i < |r.calls| :: r.calls[i].text == text
    ensures |r.calls| <= 2
    ensures (exists i | 0 <= i < |r.calls| :: r.calls[i].Detect?) <==> src == AUTO_CODE && !IsBlank(text)
    ensures src == AUTO_CODE && !IsBlank(text) ==> |r.calls| > 0 && r.calls[0] == Detect(text)
    ensures src == AUTO_CODE && !IsBlank(text) && p.detect(text).Some? ==>
      r.calls == [Detect(text), Translate(text, p.detect(text).value, dest)]
    ensures src != AUTO_CODE && !IsBlank(text) ==> r.calls == [Translate(text, src, dest)]
    ensures forall i | 0 <= i < |r.calls| - 1 :: Answer(p, r.calls[i]).Some?
    ensures r.result.Some? <==>
      |r.calls| > 0 && r.calls[|r.calls| - 1].Translate? && Answer(p, r.calls[|r.calls| - 1]).Some?
    ensures r.result.Some? ==>
      && |r.calls| > 0
      && r.calls[|r.calls| - 1] == Translate(text, r.result.value.source, dest)
      && p.translate(text, r.result.value.source, dest) == Some(r.result.value.text)
    ensures r.result.Some? && src == AUTO_CODE ==> p.detect(text) == Some(r.result.value.source)
    ensures r.result.Some? && src != AUTO_CODE ==> r.result.value.source == src
  {
    if IsBlank(text) then
      Resolution(None, [])
    else if src == AUTO_CODE then
      var d := p.detect(text);
      if d.None? then
        var r := Resolution(None, [Detect(text)]);
        assert r.calls[0].Detect? && Answer(p, r.calls[0]).None?;
        r
      else
        var calls := [Detect(text), Translate(text, d.value, dest)];
        assert Answer(p, calls[0]).Some? && Answer(p, calls[1]) == p.translate(text, d.value, dest);
        match p.translate(text, d.value, dest)
        case None => Resolution(None, calls)
        case Some(t) => Resolution(Some(Translation(t, d.value)), calls)
    else
      var calls := [Translate(text, src, dest)];
      match p.translate(text, src, dest)
      case None => Resolution(None, calls)
      case Some(t) => Resolution(Some(Translation(t, src)), calls)
  }

  /** No fault escapes: a request fails exactly when its text is blank or
      one of the provider calls it made failed. */
  lemma FailsIffBlankOrCallFailed(p: Provider, text: string, src: string, dest: string)
    ensures var r := Resolve(p, text, src, dest);
      r.result.None? <==> IsBlank(text) || exists i | 0 <= i < |r.calls| :: Answer(p, r.calls[i]).None?
  {
  }

  /** A provider whose translation echoes its input. */
  function EchoProvider(detect: string -> Option<string>): Provider
  {
    Provider(detect, (t, s, d) => Some(t))
  }

  /** With an echoing provider and an explicit source, any text that is not
      blank comes back unchanged, tagged with that source. */
  lemma EchoResolves(detect: string -> Option<string>, text: string, code: string)
    requires !AllSpace(text) && code != AUTO_CODE
    ensures Resolve(EchoProvider(detect), text, code, code).result == Some(Translation(text, code))
  {
  }

  /** The source a successful resolution reports is a real code, never the
      detection sentinel, as long as the provider does not detect "auto" for
      this text. */
  lemma ResolvedSourceIsReal(p: Provider, text: string, src: string, dest: string)
    requires p.detect(text) != Some(AUTO_CODE)
    requires Resolve(p, text, src, dest).result.Some?
    ensures Resolve(p, text, src, dest).result.value.source != AUTO_CODE
  {
  }
}
