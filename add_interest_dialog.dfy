/** The dialog that adds an interest: its name rule, what it posts, and what
    success and failure do to the form and the dialog. */
module AddInterestDialog {
  import opened JsValues

  const MinName := 2
  const MaxName := 50

  const NameTooShort := "Interest name must be at least 2 characters"
  const NameTooLong := "Interest name must be less than 50 characters"

  /** `interestSchema`: the messages of the failed checks. */
  function InterestNameIssues(name: string): (r: seq<string>)
    ensures r == [] <==> MinName <= |name| <= MaxName
    ensures |name| < MinName ==> r == [NameTooShort]
    ensures |name| > MaxName ==> r == [NameTooLong]
  {
    (if |name| >= MinName then [] else [NameTooShort]) + (if |name| <= MaxName then [] else [NameTooLong])
  }

  /** The upper bound is inclusive, whatever the message says: 50 characters
      pass and 51 do not. */
  lemma MaxIsInclusive(name: string)
    ensures |name| == 50 ==> InterestNameIssues(name) == []
    ensures |name| == 51 ==> InterestNameIssues(name) == [NameTooLong]
  {
  }

  /** Every name the dialog accepts is accepted by the server too, which only
      refuses a missing or empty name; the server takes names the dialog
      refuses, such as a single letter. */
  lemma ServerLooserThanDialog(name: string)
    ensures InterestNameIssues(name) == [] ==> Truthy(Some(name))
    ensures InterestNameIssues("Q") == [NameTooShort] && Truthy(Some("Q"))
  {
  }

  /** The dialog's state: the name field and whether the dialog is open. */
  class InterestDialog {
    var name: string
    var open: bool

    constructor (open: bool)
      ensures name == "" && this.open == open
    {
      name := "";
      this.open := open;
    }

    /** `onSubmit`: a valid name is posted unchanged; an invalid one is not
        sent at all. */
    method Submit() returns (posted: Option<string>)
      ensures posted.Some? <==> InterestNameIssues(name) == []
      ensures posted.Some? ==> posted.value == name
    {
      if InterestNameIssues(name) == [] {
        posted := Some(name);
      } else {
        posted := None;
      }
    }

    /** The mutation succeeded: the form is reset and the dialog closes. */
    method Succeeded()
      modifies this
      ensures name == "" && !open
    {
      name := "";
      open := false;
    }

    /** The mutation failed: only a message is shown. */
    method Failed()
      ensures unchanged(this)
    {
    }
  }
}
