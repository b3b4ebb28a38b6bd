/** `useWhatsAppTTS`: the speech rule and the tap handler. The browser's
    `speechSynthesis` is an engine object holding the utterances it has
    queued; the hook's `isPlaying` state and `lastClickTime` ref are fields
    of the hook object. The hook's props come in with each call. */
module WhatsAppTts {
  import opened Wrappers
  import opened JsText
  import opened MessageText
  import opened TapSearch

  /** A `SpeechSynthesisUtterance` with the settings `speakText` gives it. */
  datatype Utterance = Utterance(text: string, lang: string, rate: real, pitch: real, volume: real)

  /** The speech engine: what it has been asked to say and not yet dropped. */
  class SpeechEngine {
    var queue: seq<Utterance>

    constructor()
      ensures queue == []
    {
      queue := [];
    }

    /** `speechSynthesis.cancel()` drops everything queued or speaking. */
    method Cancel()
      modifies this
      ensures queue == []
    {
      queue := [];
    }

    /** `speechSynthesis.speak(u)` queues `u` behind what is there. */
    method Speak(u: Utterance)
      modifies this
      ensures queue == old(queue) + [u]
    {
      queue := queue + [u];
    }
  }

  /** The hook's props. */
  datatype TtsProps = TtsProps(
    isListening: bool,
    selectedLanguage: string,
    voiceSpeed: real,
    voicePitch: real,
    isWhitelisted: bool)

  /** Taps closer together than this many milliseconds are ignored. */
  const DEBOUNCE_MS: int := 500

  /** The shortest text `speakText` will say, in UTF-16 code units. */
  const MIN_SPOKEN: nat := 2

  /** The utterance `speakText` builds for `text` under `props`. */
  function UtteranceFor(props: TtsProps, text: string): Utterance {
    Utterance(text, props.selectedLanguage, props.voiceSpeed, props.voicePitch, 1.0)
  }

  /** How a tap ended. */
  datatype TapOutcome =
    | Gated            // not listening, or not whitelisted
    | Debounced        // too soon after the last accepted tap
    | NoTarget         // the event had no target
    | Searched(found: Found)

  /** The text a tap hands to `speakText`, if any. */
  function SpokenText(outcome: TapOutcome): Option<string> {
    if outcome.Searched? && !outcome.found.NotFound? then Some(outcome.found.text) else None
  }

  /** An accepted tap (gate open, debounce window passed). */
  predicate Accepted(props: TtsProps, now: int, lastClick: int) {
    props.isListening && props.isWhitelisted && now - lastClick >= DEBOUNCE_MS
  }

  /** What a tap at `now` on `target` does, as a function of the props, the
      time of the last accepted tap and the document. */
  function TapResult(props: TtsProps, now: int, lastClick: int, target: Option<Id>, doc: Document): TapOutcome
    requires Closed(doc) && (target.Some? ==> target.value in doc)
  {
    if !props.isListening || !props.isWhitelisted then Gated
    else if now - lastClick < DEBOUNCE_MS then Debounced
    else if target.None? then NoTarget
    else Searched(Resolve(doc, target.value))
  }

  /** Only an accepted tap with a target can speak, and it speaks exactly
      when the search finds something; what it finds is always long enough
      to pass the speech guard. */
  lemma TapSpeech(props: TtsProps, now: int, lastClick: int, target: Option<Id>, doc: Document)
    requires Closed(doc) && (target.Some? ==> target.value in doc)
    ensures SpokenText(TapResult(props, now, lastClick, target, doc)).Some? ==>
      && Accepted(props, now, lastClick) && target.Some?
      && JsLength(SpokenText(TapResult(props, now, lastClick, target, doc)).value) >= MIN_SPOKEN
    ensures Accepted(props, now, lastClick) && target.Some? ==>
      (SpokenText(TapResult(props, now, lastClick, target, doc)).None? <==> Resolve(doc, target.value).NotFound?)
  {
    if target.Some? {
      ResolveNothing(doc, target.value);
    }
  }

  class TtsHook {
    var isPlaying: bool
    var lastClickTime: int
    const engine: SpeechEngine

    constructor(engine: SpeechEngine)
      ensures !isPlaying && lastClickTime == 0 && this.engine == engine
    {
      isPlaying := false;
      lastClickTime := 0;
      this.engine := engine;
    }

    /** `speakText`: text shorter than two code units is ignored; otherwise
        the engine is cancelled first, so the new utterance is the only one
        it holds. */
    method SpeakText(props: TtsProps, text: string)
      modifies engine
      ensures JsLength(text) < MIN_SPOKEN ==> engine.queue == old(engine.queue)
      ensures JsLength(text) >= MIN_SPOKEN ==> engine.queue == [UtteranceFor(props, text)]
    {
      if text == [] || JsLength(text) < MIN_SPOKEN {
        return;
      }
      engine.Cancel();
      engine.Speak(UtteranceFor(props, text));
    }

    /** `stopSpeaking`. */
    method StopSpeaking()
      modifies this, engine
      ensures engine.queue == [] && !isPlaying && lastClickTime == old(lastClickTime)
    {
      engine.Cancel();
      isPlaying := false;
    }

    /** The utterance's `onstart`, `onend` and `onerror` callbacks. */
    method OnStart()
      modifies this
      ensures isPlaying && lastClickTime == old(lastClickTime)
    {
      isPlaying := true;
    }

    method OnEnd()
      modifies this
      ensures !isPlaying && lastClickTime == old(lastClickTime)
    {
      isPlaying := false;
    }

    method OnError()
      modifies this
      ensures !isPlaying && lastClickTime == old(lastClickTime)
    {
      isPlaying := false;
    }

    /** The `while` loop of `handleClick`: from the target up through at most
        `MAX_HOPS` elements, stopping at the first whose text fits. */
    static method WalkAncestors(doc: Document, target: Id) returns (found: Found)
      requires Closed(doc) && target in doc
      ensures found == AncestorSearch(doc, target)
    {
      ghost var chain := Chain(doc, target);
      var current: Option<Id> := Some(target);
      var attempts: nat := 0;
      while current.Some? && attempts < MAX_HOPS
        invariant attempts <= MAX_HOPS && attempts <= |chain|
        invariant current.Some? ==> current.value in doc
        invariant current.Some? ==> chain[attempts..] == Ancestry(doc, current.value, MAX_HOPS - attempts)
        invariant current.None? ==> attempts == |chain|
        invariant forall k | 0 <= k < attempts :: !Fits(TextOf(doc, chain[k]), ANCESTOR_LIMIT)
        decreases MAX_HOPS - attempts
      {
        var id := current.value;
        AncestryTail(doc, chain, attempts, id, MAX_HOPS - attempts);
        var text := TextOf(doc, id);
        if Fits(text, ANCESTOR_LIMIT) {
          FirstFitExact(doc, chain, ANCESTOR_LIMIT, attempts);
          return InAncestor(id, text);
        }
        current := doc[id].parent;
        attempts := attempts + 1;
      }
      if current.Some? {
        assert Ancestry(doc, current.value, 0) == [];
      }
      FirstFitExact(doc, chain, ANCESTOR_LIMIT, |chain|);
      return NotFound;
    }

    /** The `for` loop of `handleClick` over the target's `span`/`div`/`p`
        descendants, stopping at the first whose text fits. */
    static method ScanDescendants(doc: Document, target: Id) returns (found: Found)
      requires Closed(doc) && target in doc
      ensures found == DescendantSearch(doc, target)
    {
      var children := TextContainers(doc, doc[target].descendants);
      for i := 0 to |children|
        invariant forall k | 0 <= k < i :: !Fits(TextOf(doc, children[k]), DESCENDANT_LIMIT)
      {
        var text := TextOf(doc, children[i]);
        if Fits(text, DESCENDANT_LIMIT) {
          FirstFitExact(doc, children, DESCENDANT_LIMIT, i);
          return InDescendant(children[i], text);
        }
      }
      FirstFitExact(doc, children, DESCENDANT_LIMIT, |children|);
      return NotFound;
    }

    /** `handleClick`: the gate, the debounce, then the two searches; the
        text found, if any, is spoken. */
    method HandleTap(props: TtsProps, now: int, target: Option<Id>, doc: Document)
        returns (outcome: TapOutcome)
      requires Closed(doc) && (target.Some? ==> target.value in doc)
      modifies this, engine
      ensures outcome == TapResult(props, now, old(lastClickTime), target, doc)
      ensures lastClickTime == (if Accepted(props, now, old(lastClickTime)) then now else old(lastClickTime))
      ensures isPlaying == old(isPlaying)
      ensures SpokenText(outcome).Some? ==> engine.queue == [UtteranceFor(props, SpokenText(outcome).value)]
      ensures SpokenText(outcome).None? ==> engine.queue == old(engine.queue)
    {
      if !props.isListening || !props.isWhitelisted {
        return Gated;
      }
      if now - lastClickTime < DEBOUNCE_MS {
        return Debounced;
      }
      lastClickTime := now;
      if target.None? {
        return NoTarget;
      }
      var found := WalkAncestors(doc, target.value);
      if found.NotFound? {
        found := ScanDescendants(doc, target.value);
      }
      if !found.NotFound? {
        ResolveNothing(doc, target.value);
        SpeakText(props, found.text);
      }
      return Searched(found);
    }
  }

  /** A second tap less than `DEBOUNCE_MS` after an accepted one does
      nothing: the two taps speak at most once. */
  method DoubleTap(hook: TtsHook, props: TtsProps, first: int, second: int, target: Option<Id>, doc: Document)
      returns (o1: TapOutcome, o2: TapOutcome)
    requires Closed(doc) && (target.Some? ==> target.value in doc)
    requires Accepted(props, first, hook.lastClickTime)
    requires second < first + DEBOUNCE_MS
    modifies hook, hook.engine
    ensures o2 == Debounced && hook.lastClickTime == first
    ensures SpokenText(o1).None? ==> hook.engine.queue == old(hook.engine.queue)
    ensures SpokenText(o1).Some? ==> hook.engine.queue == [UtteranceFor(props, SpokenText(o1).value)]
  {
    o1 := hook.HandleTap(props, first, target, doc);
    o2 := hook.HandleTap(props, second, target, doc);
  }
}
