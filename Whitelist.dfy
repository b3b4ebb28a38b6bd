/** `useWhatsAppWhitelist`: the phone-number check against the loaded
    whitelist and the effect that re-validates a number saved by an earlier
    session. `localStorage` is a string-to-string map; the react-query
    result is an optional list that stays `None` until it has loaded. */
module Whitelist {
  import opened Wrappers
  import opened JsText

  /** The list served when the whitelist request fails. */
  const FALLBACK_WHITELIST: seq<string> :=
    ["+923001234567", "+4915123456789", "+12025550123", "+447911123456"]

  /** The two `localStorage` keys and the status value written with them. */
  const VERIFIED_NUMBER_KEY: string := "whatsapp_verified_number"
  const VERIFICATION_STATUS_KEY: string := "whatsapp_verification_status"
  const STATUS_VERIFIED: string := "true"

  /** `phoneNumber.replace(/\s+/g, '').trim()`. */
  function Normalize(phone: string): string {
    Trim(ReplaceSpaceRuns(phone, ""))
  }

  /** Storage after a successful check of `number`. */
  function Persisted(storage: map<string, string>, number: string): map<string, string> {
    storage[VERIFIED_NUMBER_KEY := number][VERIFICATION_STATUS_KEY := STATUS_VERIFIED]
  }

  /** What the restore effect does with the saved record. */
  datatype RestoreAction =
    | KeepState          // no usable record, or the list has not loaded
    | Adopt(number: string)
    | Forget             // a verified record whose number is no longer listed

  /** `savedNumber && savedStatus === 'true' && whitelistData?.whitelist`,
      then `includes`: an absent or empty saved number is falsy. */
  function RestoreDecision(storage: map<string, string>, whitelist: Option<seq<string>>): RestoreAction {
    if && VERIFIED_NUMBER_KEY in storage && storage[VERIFIED_NUMBER_KEY] != ""
       && VERIFICATION_STATUS_KEY in storage && storage[VERIFICATION_STATUS_KEY] == STATUS_VERIFIED
       && whitelist.Some?
    then (if storage[VERIFIED_NUMBER_KEY] in whitelist.value then Adopt(storage[VERIFIED_NUMBER_KEY]) else Forget)
    else KeepState
  }

  // ------------------------------------------------------- normalisation

  /** Without whitespace, `trim()` has nothing to remove. */
  lemma TrimOfNoSpace(s: string)
    requires NoSpace(s)
    ensures Trim(s) == s
  {
    assert TrimStart(s) == s;
  }

  /** Normalisation deletes every whitespace character, wherever it is,
      and keeps every other character in order. */
  lemma NormalizeDeletesWhitespace(phone: string)
    ensures Normalize(phone) == RemoveSpaces(phone)
    ensures NoSpace(Normalize(phone)) && |Normalize(phone)| <= |phone|
  {
    ReplaceSpaceRunsByNothing(phone);
    RemoveSpacesNoSpace(phone);
    TrimOfNoSpace(RemoveSpaces(phone));
  }

  lemma NormalizeIdempotent(phone: string)
    ensures Normalize(Normalize(phone)) == Normalize(phone)
  {
    NormalizeDeletesWhitespace(phone);
    NormalizeDeletesWhitespace(Normalize(phone));
    RemoveSpacesOfNoSpace(Normalize(phone));
  }

  /** Inserting whitespace anywhere in a number does not change its
      normalised form, and so does not change the check's answer. */
  lemma NormalizeIgnoresInsertedSpace(a: string, w: string, b: string)
    requires AllSpace(w)
    ensures Normalize(a + w + b) == Normalize(a + b)
  {
    NormalizeDeletesWhitespace(a + w + b);
    NormalizeDeletesWhitespace(a + b);
    RemoveSpacesAppend(a + w, b);
    RemoveSpacesAppend(a, w);
    RemoveSpacesAppend(a, b);
    RemoveSpacesOfAllSpace(w);
  }

  // ------------------------------------------------------------ restore

  /** A successful check of a non-empty number is restored by the next
      session against the same list. */
  lemma CheckThenRestore(storage: map<string, string>, list: seq<string>, phone: string)
    requires Normalize(phone) in list && Normalize(phone) != ""
    ensures RestoreDecision(Persisted(storage, Normalize(phone)), Some(list)) == Adopt(Normalize(phone))
  {
  }

  /** A blank entry that happens to be listed passes the check, but an
      empty saved number is falsy, so it is never restored. */
  lemma BlankNeverRestored(storage: map<string, string>, list: seq<string>)
    ensures RestoreDecision(Persisted(storage, ""), Some(list)) == KeepState
  {
  }

  /** Forgetting removes the record, so the next restore leaves everything
      as it is; adopting leaves storage alone, so the next restore adopts
      the same number. */
  lemma RestoreSettles(storage: map<string, string>, whitelist: Option<seq<string>>)
    ensures RestoreDecision(storage, whitelist).Forget? ==>
      RestoreDecision(storage - {VERIFIED_NUMBER_KEY, VERIFICATION_STATUS_KEY}, whitelist) == KeepState
    ensures RestoreDecision(storage, whitelist).Adopt? ==>
      RestoreDecision(storage, whitelist).number in whitelist.value
  {
  }

  // -------------------------------------------------------------- state

  class WhitelistGate {
    var whitelist: Option<seq<string>>
    var isWhitelisted: bool
    var currentNumber: Option<string>
    var storage: map<string, string>

    /** A fresh hook over whatever `localStorage` holds from earlier sessions. */
    constructor(saved: map<string, string>)
      ensures whitelist == None && !isWhitelisted && currentNumber == None && storage == saved
    {
      whitelist := None;
      isWhitelisted := false;
      currentNumber := None;
      storage := saved;
    }

    /** `checkWhitelistStatus`. Before the list has loaded it answers false
        and changes nothing; afterwards it records the normalised number and
        the answer, and persists the number only when it is listed. An
        unlisted number leaves storage as it was. */
    method CheckWhitelistStatus(phone: string) returns (listed: bool)
      modifies this
      ensures whitelist == old(whitelist)
      ensures old(whitelist).None? ==>
        && !listed && isWhitelisted == old(isWhitelisted)
        && currentNumber == old(currentNumber) && storage == old(storage)
      ensures old(whitelist).Some? ==>
        && listed == (Normalize(phone) in old(whitelist).value)
        && currentNumber == Some(Normalize(phone)) && isWhitelisted == listed
        && storage == (if listed then Persisted(old(storage), Normalize(phone)) else old(storage))
    {
      if whitelist.None? {
        return false;
      }
      var normalized := Trim(ReplaceSpaceRuns(phone, ""));
      listed := normalized in whitelist.value;
      currentNumber := Some(normalized);
      isWhitelisted := listed;
      if listed {
        storage := storage[VERIFIED_NUMBER_KEY := normalized];
        storage := storage[VERIFICATION_STATUS_KEY := STATUS_VERIFIED];
      }
    }

    /** The restore effect (it runs whenever the query result changes). */
    method RestoreSaved()
      modifies this
      ensures whitelist == old(whitelist)
      ensures match RestoreDecision(old(storage), old(whitelist))
        case KeepState =>
          isWhitelisted == old(isWhitelisted) && currentNumber == old(currentNumber) && storage == old(storage)
        case Adopt(n) =>
          isWhitelisted && currentNumber == Some(n) && storage == old(storage)
        case Forget =>
          && isWhitelisted == old(isWhitelisted) && currentNumber == old(currentNumber)
          && storage == old(storage) - {VERIFIED_NUMBER_KEY, VERIFICATION_STATUS_KEY}
    {
      var savedNumber := if VERIFIED_NUMBER_KEY in storage then Some(storage[VERIFIED_NUMBER_KEY]) else None;
      var savedStatus := if VERIFICATION_STATUS_KEY in storage then Some(storage[VERIFICATION_STATUS_KEY]) else None;
      if savedNumber.Some? && savedNumber.value != "" && savedStatus == Some(STATUS_VERIFIED) && whitelist.Some? {
        var isStillWhitelisted := savedNumber.value in whitelist.value;
        if isStillWhitelisted {
          currentNumber := savedNumber;
          isWhitelisted := true;
        } else {
          storage := storage - {VERIFIED_NUMBER_KEY};
          storage := storage - {VERIFICATION_STATUS_KEY};
        }
      }
    }

    /** The query result arrives; the restore effect then runs on it. */
    method ReceiveWhitelist(list: seq<string>)
      modifies this
      ensures whitelist == Some(list)
      ensures match RestoreDecision(old(storage), Some(list))
        case KeepState =>
          isWhitelisted == old(isWhitelisted) && currentNumber == old(currentNumber) && storage == old(storage)
        case Adopt(n) =>
          isWhitelisted && currentNumber == Some(n) && storage == old(storage)
        case Forget =>
          && isWhitelisted == old(isWhitelisted) && currentNumber == old(currentNumber)
          && storage == old(storage) - {VERIFIED_NUMBER_KEY, VERIFICATION_STATUS_KEY}
    {
      whitelist := Some(list);
      RestoreSaved();
    }
  }

  // ----------------------------------------------------------- examples

  lemma NoSpaceAppend(x: string, y: string)
    requires NoSpace(x) && NoSpace(y)
    ensures NoSpace(x + y)
  {
    assert forall i | |x| <= i < |x + y| :: (x + y)[i] == y[i - |x|];
  }

  /** A number padded with a space at each end normalises to itself. */
  lemma NormalizePadded(n: string)
    requires NoSpace(n)
    ensures Normalize(" " + n + " ") == n
  {
    NormalizeDeletesWhitespace(" " + n + " ");
    RemoveSpacesAppend(" " + n, " ");
    RemoveSpacesAppend(" ", n);
    RemoveSpacesOfAllSpace(" ");
    RemoveSpacesOfNoSpace(n);
  }

  /** A number written in four space-separated groups normalises to the
      groups run together. */
  lemma NormalizeGroups(a: string, b: string, c: string, d: string)
    requires NoSpace(a) && NoSpace(b) && NoSpace(c) && NoSpace(d)
    ensures Normalize(a + " " + b + " " + c + " " + d) == a + b + c + d
  {
    NormalizeIgnoresInsertedSpace(a + " " + b + " " + c, " ", d);
    NormalizeIgnoresInsertedSpace(a + " " + b, " ", c + d);
    NormalizeIgnoresInsertedSpace(a, " ", b + (c + d));
    assert a + " " + b + " " + c + d == a + " " + b + " " + (c + d);
    assert a + " " + b + (c + d) == a + " " + (b + (c + d));
    var n := a + (b + (c + d));
    assert n == a + b + c + d;
    NoSpaceAppend(c, d);
    NoSpaceAppend(b, c + d);
    NoSpaceAppend(a, b + (c + d));
    NormalizeDeletesWhitespace(n);
    RemoveSpacesOfNoSpace(n);
  }

  lemma PaddedNumber()
    ensures Normalize(" " + "+12025550123" + " ") == "+12025550123"
  {
    assert NoSpace("+12025550123");
    NormalizePadded("+12025550123");
  }

  lemma GroupedNumber()
    ensures Normalize("+1" + " " + "202" + " " + "555" + " " + "0123") == "+12025550123"
  {
    assert NoSpace("+1") && NoSpace("202") && NoSpace("555") && NoSpace("0123");
    NormalizeGroups("+1", "202", "555", "0123");
    assert "+1" + "202" + "555" + "0123" == "+12025550123";
  }

  /** Both spellings of a fallback number are accepted and persisted in
      the same normalised form. */
  method FallbackScenario() returns (gate: WhitelistGate, padded: bool, grouped: bool)
    ensures padded && grouped
    ensures gate.currentNumber == Some("+12025550123") && gate.isWhitelisted
    ensures gate.storage == map[VERIFIED_NUMBER_KEY := "+12025550123", VERIFICATION_STATUS_KEY := STATUS_VERIFIED]
  {
    gate := new WhitelistGate(map[]);
    gate.ReceiveWhitelist(FALLBACK_WHITELIST);
    PaddedNumber();
    padded := gate.CheckWhitelistStatus(" " + "+12025550123" + " ");
    GroupedNumber();
    grouped := gate.CheckWhitelistStatus("+1" + " " + "202" + " " + "555" + " " + "0123");
  }
}
