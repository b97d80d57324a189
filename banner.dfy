/**
 * The error banner that `_toggleError` drives: the text of `.errorMessageText`
 * and the `hidden` class of `.errorMessage`.
 */
module Banner {

  datatype BannerState = BannerState(text: string, hidden: bool)

  /** `_toggleError(msg)`: show `msg` if the text is empty, else clear it; always flip `hidden`. */
  function Toggled(b: BannerState, msg: string): BannerState {
    BannerState(if b.text == "" then msg else "", !b.hidden)
  }

  /** The banner is hidden exactly when it has no text. */
  predicate Consistent(b: BannerState) {
    b.hidden <==> b.text == ""
  }

  /** Toggling with a non-empty message keeps text and visibility in step. */
  lemma ToggleKeepsConsistent(b: BannerState, msg: string)
    requires Consistent(b) && msg != ""
    ensures Consistent(Toggled(b, msg))
    ensures Toggled(b, msg).hidden ==> Toggled(b, msg).text == ""
    ensures !Toggled(b, msg).hidden ==> Toggled(b, msg).text == msg
  {
  }

  /**
   * From an empty banner, two toggles bring it back: a second error in a row
   * hides the first one's message instead of showing its own.
   */
  lemma ToggleTwiceRestores(b: BannerState, first: string, second: string)
    requires b.text == "" && first != ""
    ensures Toggled(b, first).text == first
    ensures Toggled(Toggled(b, first), second) == b
  {
  }

  class ErrorBanner {
    var text: string
    var hidden: bool

    /** The banner as the page starts: empty and hidden. */
    constructor ()
      ensures text == "" && hidden
      ensures Consistent(State())
    {
      text := "";
      hidden := true;
    }

    function State(): BannerState
      reads this
    {
      BannerState(text, hidden)
    }

    method Toggle(msg: string)
      modifies this
      ensures text == (if old(text) == "" then msg else "")
      ensures hidden == !old(hidden)
      ensures State() == Toggled(old(State()), msg)
    {
      if text == "" {
        text := msg;
      } else {
        text := "";
      }
      hidden := !hidden;
    }
  }
}
