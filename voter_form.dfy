/**
 * The voter-eligibility form: a name and an age are submitted; a blank name
 * is refused with a warning, otherwise a popup says whether the person may
 * vote (18 or older). The popup is shown on the run where it was set and
 * then cleared, so it appears once per submission. The popup's own overlay
 * blurs what lies behind it; separately, the page's container gets the
 * `blurred` class when the popup flag is set as a run starts.
 *
 * The page's session state (`show_popup`, `popup_message`, `popup_color`)
 * is a `FormSession` object. Blankness uses the ASCII characters Python's
 * `str.strip` removes.
 */
module VoterForm {
  import opened Wrappers
  import opened Chars

  const EligibleColour := "#4CAF50"
  const IneligibleColour := "#e74c3c"

  /** `not name.strip()`: nothing is left once the whitespace is stripped. */
  predicate IsBlank(name: string)
    ensures IsBlank(name) <==> StripLeading(name) == []
  {
    forall i :: 0 <= i < |name| ==> IsSpace(name[i])
  }

  /** `s.lstrip()`: `s` without its leading whitespace. */
  function StripLeading(s: string): (r: string)
    ensures |r| <= |s| && r == s[|s| - |r|..]
    ensures forall i :: 0 <= i < |s| - |r| ==> IsSpace(s[i])
    ensures r == [] || !IsSpace(r[0])
  {
    if s != [] && IsSpace(s[0]) then StripLeading(s[1..]) else s
  }

  datatype Decision = Decision(message: string, colour: string)

  /** The greeting for a voter: it names them and opens with a party popper. */
  function EligibleMessage(name: string): (m: string)
    ensures Mentions(m, name) && |m| > 0 && m[0] == '\U{1F389}'
    ensures Mentions(m, "You are eligible to vote.")
  {
    var h := "\U{1F389} Hello " + name + "!<br><b>";
    var m := h + "You are eligible to vote." + "</b>";
    assert m == h + "You are eligible to vote." + "</b>";
    assert name <= m[8..];
    assert "You are eligible to vote." <= m[|h|..];
    m
  }

  /** The greeting for someone too young: it names them and opens with a no-entry sign. */
  function IneligibleMessage(name: string): (m: string)
    ensures Mentions(m, name) && |m| > 0 && m[0] == '\U{1F6AB}'
    ensures Mentions(m, "You are not eligible to vote yet.")
  {
    var h := "\U{1F6AB} Hello " + name + "!<br><b>";
    var m := h + "You are not eligible to vote yet." + "</b>";
    assert m == h + "You are not eligible to vote yet." + "</b>";
    assert name <= m[8..];
    assert "You are not eligible to vote yet." <= m[|h|..];
    m
  }

  /** The popup a submission sets, or None when the name is blank. */
  function Decide(name: string, age: int): (d: Option<Decision>)
    ensures d.None? <==> IsBlank(name)
    ensures d.Some? ==> (d.value.colour == EligibleColour <==> age >= 18)
    ensures d.Some? ==> (d.value.colour == IneligibleColour <==> age < 18)
    ensures d.Some? ==> Mentions(d.value.message, name)
    ensures d.Some? && age >= 18 ==> Mentions(d.value.message, "You are eligible to vote.")
    ensures d.Some? && age < 18 ==> Mentions(d.value.message, "You are not eligible to vote yet.")
  {
    if IsBlank(name) then None
    else if age >= 18 then Some(Decision(EligibleMessage(name), EligibleColour))
    else Some(Decision(IneligibleMessage(name), IneligibleColour))
  }

  /** `name` occurs in `text`. */
  predicate Mentions(text: string, name: string) {
    exists i :: 0 <= i <= |text| && name <= text[i..]
  }

  datatype Popup = Popup(message: string, colour: string)

  /**
   * What one run of the page shows: whether the page container has the
   * `blurred` class, whether the blank-name warning is shown, and the popup.
   */
  datatype View = View(blurred: bool, warning: bool, popup: Option<Popup>)

  class FormSession {
    var showPopup: bool
    var popupMessage: string
    var popupColour: string

    /** First visit: no popup, empty message, green. */
    constructor()
      ensures !showPopup && popupMessage == "" && popupColour == EligibleColour
    {
      showPopup := false;
      popupMessage := "";
      popupColour := EligibleColour;
    }

    /**
     * Handling a submission. A blank name raises the warning and changes
     * nothing; any other name sets the popup's message and colour and
     * raises the popup flag.
     */
    method Submit(name: string, age: int) returns (warning: bool)
      modifies this
      ensures warning <==> IsBlank(name)
      ensures warning ==> showPopup == old(showPopup) && popupMessage == old(popupMessage)
                          && popupColour == old(popupColour)
      ensures !warning ==> showPopup && Decide(name, age) == Some(Decision(popupMessage, popupColour))
    {
      var stripped := forall i :: 0 <= i < |name| ==> IsSpace(name[i]);
      if stripped {
        warning := true;
      } else {
        warning := false;
        if age >= 18 {
          popupMessage := EligibleMessage(name);
          popupColour := EligibleColour;
        } else {
          popupMessage := IneligibleMessage(name);
          popupColour := IneligibleColour;
        }
        showPopup := true;
      }
    }

    /** The popup, if raised, is rendered and its flag cleared. */
    method RenderPopup() returns (popup: Option<Popup>)
      modifies this
      ensures popup == if old(showPopup) then Some(Popup(popupMessage, popupColour)) else None
      ensures !showPopup && popupMessage == old(popupMessage) && popupColour == old(popupColour)
    {
      if showPopup {
        popup := Some(Popup(popupMessage, popupColour));
        showPopup := false;
      } else {
        popup := None;
      }
    }

    /**
     * One run of the page: the container's class is chosen from the flag as
     * the run starts, the submission (if any) is handled, then the popup is
     * shown once and cleared. Without a valid submission the stored message
     * and colour stay, and a popup still pending shows them.
     */
    method Run(submitted: bool, name: string, age: int) returns (view: View)
      modifies this
      ensures view.blurred == old(showPopup)
      ensures view.warning <==> submitted && IsBlank(name)
      ensures view.popup.Some? <==> old(showPopup) || (submitted && !IsBlank(name))
      ensures submitted && !IsBlank(name) ==>
                Decide(name, age) == Some(Decision(view.popup.value.message, view.popup.value.colour))
      ensures submitted && !IsBlank(name) ==> Decide(name, age) == Some(Decision(popupMessage, popupColour))
      ensures !(submitted && !IsBlank(name)) ==>
                popupMessage == old(popupMessage) && popupColour == old(popupColour)
      ensures old(showPopup) && !(submitted && !IsBlank(name)) ==>
                view.popup == Some(Popup(old(popupMessage), old(popupColour)))
      ensures !showPopup
    {
      var blurred := showPopup;
      var warning := false;
      if submitted {
        warning := Submit(name, age);
      }
      var popup := RenderPopup();
      view := View(blurred, warning, popup);
    }

    /**
     * One run with the container's class chosen after the submission is
     * handled, so that the container is `blurred` exactly when the popup is
     * on it; everything else is as in `Run`.
     */
    method RunBlurringPopup(submitted: bool, name: string, age: int) returns (view: View)
      modifies this
      ensures view.blurred <==> view.popup.Some?
      ensures view.warning <==> submitted && IsBlank(name)
      ensures view.popup.Some? <==> old(showPopup) || (submitted && !IsBlank(name))
      ensures submitted && !IsBlank(name) ==>
                Decide(name, age) == Some(Decision(view.popup.value.message, view.popup.value.colour))
      ensures submitted && !IsBlank(name) ==> Decide(name, age) == Some(Decision(popupMessage, popupColour))
      ensures !(submitted && !IsBlank(name)) ==>
                popupMessage == old(popupMessage) && popupColour == old(popupColour)
      ensures old(showPopup) && !(submitted && !IsBlank(name)) ==>
                view.popup == Some(Popup(old(popupMessage), old(popupColour)))
      ensures !showPopup
    {
      var warning := false;
      if submitted {
        warning := Submit(name, age);
      }
      var blurred := showPopup;
      var popup := RenderPopup();
      view := View(blurred, warning, popup);
    }
  }

  /**
   * Submitting a name shows the popup on that run only: a following run
   * without a submission shows no popup. The container does not get the
   * `blurred` class, because its class is chosen before the submission
   * raises the popup flag, and the flag is cleared again by the end of the
   * same run.
   */
  method ShownOnceUnblurred(name: string, age: int) returns (first: View, second: View)
    requires !IsBlank(name)
    ensures first.popup.Some? && !first.blurred
    ensures first.popup.value.colour == if age >= 18 then EligibleColour else IneligibleColour
    ensures second.popup.None? && !second.blurred && !second.warning
  {
    var session := new FormSession();
    first := session.Run(true, name, age);
    second := session.Run(false, "", 0);
  }

  /**
   * Whatever is submitted on whichever run, the page as written never gives
   * its container the `blurred` class.
   */
  method NeverBlurred(runs: seq<(bool, string, int)>) returns (views: seq<View>)
    ensures |views| == |runs|
    ensures forall k :: 0 <= k < |views| ==> !views[k].blurred
  {
    var session := new FormSession();
    views := [];
    for k := 0 to |runs|
      invariant |views| == k && !session.showPopup
      invariant forall j :: 0 <= j < k ==> !views[j].blurred
    {
      var view := session.Run(runs[k].0, runs[k].1, runs[k].2);
      views := views + [view];
    }
  }

  /** With the class chosen after the submission, the popup comes with the `blurred` container, once. */
  method ShownOnceBlurred(name: string, age: int) returns (first: View, second: View)
    requires !IsBlank(name)
    ensures first.popup.Some? && first.blurred
    ensures first.popup.value.colour == if age >= 18 then EligibleColour else IneligibleColour
    ensures second.popup.None? && !second.blurred && !second.warning
  {
    var session := new FormSession();
    first := session.RunBlurringPopup(true, name, age);
    second := session.RunBlurringPopup(false, "", 0);
  }
}
