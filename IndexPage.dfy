/** The handlers of the `Index` page: four state fields and the transitions
    the mode switch, the listening buttons and the verification card
    trigger. The language and the two slider values are carried along so
    that "nothing else changes" can be stated. */
module IndexPage {

  class VoiceAssistPage {
    var isWhatsAppMode: bool
    var isPlaying: bool
    var isListening: bool
    var isWhatsAppVerified: bool
    var selectedLanguage: string
    var voiceSpeed: seq<real>
    var voicePitch: seq<real>

    /** The `useState` initial values. */
    constructor()
      ensures isWhatsAppMode && !isPlaying && !isListening && !isWhatsAppVerified
      ensures selectedLanguage == "en-US" && voiceSpeed == [1.0] && voicePitch == [1.0]
    {
      isWhatsAppMode := true;
      isPlaying := false;
      isListening := false;
      isWhatsAppVerified := false;
      selectedLanguage := "en-US";
      voiceSpeed := [1.0];
      voicePitch := [1.0];
    }

    /** `isWhatsAppMode && !isWhatsAppVerified`, passed to both controls. */
    predicate IsDisabled()
      reads this
    {
      isWhatsAppMode && !isWhatsAppVerified
    }

    /** Everything but the four handler-driven fields. */
    twostate predicate SettingsUnchanged()
      reads this
    {
      && selectedLanguage == old(selectedLanguage)
      && voiceSpeed == old(voiceSpeed) && voicePitch == old(voicePitch)
    }

    /** `handleModeToggle`: switching into WhatsApp mode clears the
        verification; switching to document mode keeps it. */
    method HandleModeToggle(checked: bool)
      modifies this
      ensures isWhatsAppMode == checked
      ensures isWhatsAppVerified == (if checked then false else old(isWhatsAppVerified))
      ensures isListening == old(isListening) && isPlaying == old(isPlaying)
      ensures SettingsUnchanged()
    {
      isWhatsAppMode := checked;
      if checked {
        isWhatsAppVerified := false;
      }
    }

    /** `handleStartListening`: refused, with no change at all, in WhatsApp
        mode without a verified number; otherwise it only starts listening. */
    method HandleStartListening()
      modifies this
      ensures old(IsDisabled()) ==> isListening == old(isListening)
      ensures !old(IsDisabled()) ==> isListening
      ensures isWhatsAppMode == old(isWhatsAppMode) && isWhatsAppVerified == old(isWhatsAppVerified)
      ensures isPlaying == old(isPlaying)
      ensures SettingsUnchanged()
    {
      if isWhatsAppMode && !isWhatsAppVerified {
        return;
      }
      isListening := true;
    }

    /** `handleStopListening`. */
    method HandleStopListening()
      modifies this
      ensures !isListening && !isPlaying
      ensures isWhatsAppMode == old(isWhatsAppMode) && isWhatsAppVerified == old(isWhatsAppVerified)
      ensures SettingsUnchanged()
    {
      isListening := false;
      isPlaying := false;
    }

    /** `handleVerificationChange`: the verification card's answer. */
    method HandleVerificationChange(isVerified: bool)
      modifies this
      ensures isWhatsAppVerified == isVerified
      ensures isWhatsAppMode == old(isWhatsAppMode) && isListening == old(isListening)
      ensures isPlaying == old(isPlaying)
      ensures SettingsUnchanged()
    {
      isWhatsAppVerified := isVerified;
    }

    /** The floating button (and the voice-control button, which is wired
        the same way): its `onToggle` stops while listening and starts
        otherwise, and the button is `disabled` while `IsDisabled()` holds,
        so a press then does nothing at all. */
    method FloatingToggle()
      modifies this
      ensures old(IsDisabled()) ==> isListening == old(isListening) && isPlaying == old(isPlaying)
      ensures !old(IsDisabled()) && old(isListening) ==> !isListening && !isPlaying
      ensures !old(IsDisabled()) && !old(isListening) ==> isListening && isPlaying == old(isPlaying)
      ensures isWhatsAppMode == old(isWhatsAppMode) && isWhatsAppVerified == old(isWhatsAppVerified)
      ensures SettingsUnchanged()
    {
      if IsDisabled() {
        return;
      }
      if isListening {
        HandleStopListening();
      } else {
        HandleStartListening();
      }
    }
  }

  /** Listening in WhatsApp mode does not imply a verified number: start in
      document mode, then switch back. */
  method ListeningUnverified() returns (page: VoiceAssistPage)
    ensures page.isListening && page.isWhatsAppMode && !page.isWhatsAppVerified
  {
    page := new VoiceAssistPage();
    page.HandleModeToggle(false);
    page.HandleStartListening();
    page.HandleModeToggle(true);
  }

  /** The same through the verification card: verify, start, then lose the
      verification. */
  method ListeningAfterRevocation() returns (page: VoiceAssistPage)
    ensures page.isListening && page.isWhatsAppMode && !page.isWhatsAppVerified
  {
    page := new VoiceAssistPage();
    page.HandleVerificationChange(true);
    page.HandleStartListening();
    page.HandleVerificationChange(false);
  }

  /** In the state `ListeningUnverified` reaches, a press on either button
      does not stop listening: both are disabled there. */
  method DisabledWhileListening() returns (page: VoiceAssistPage)
    ensures page.isListening && page.IsDisabled()
  {
    page := new VoiceAssistPage();
    page.HandleModeToggle(false);
    page.HandleStartListening();
    page.HandleModeToggle(true);
    page.FloatingToggle();
  }
}
