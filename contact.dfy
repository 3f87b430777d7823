/**
 * The demo contact form: a submission is acknowledged locally, never sent anywhere.
 */
module Contact {
  import opened Text

  const ErrorText: string := "Fyll i alla fält."
  const SuccessText: string := "Tack! Ditt meddelande är skickat (demo)."
  const DangerColor: string := "var(--danger)"
  const OkColor: string := "var(--ok)"

  /**
   * The validation of the submit handler on the trimmed fields: a submission is accepted
   * exactly when each of the three fields holds some character that is not white space.
   */
  function Accepts(name: string, email: string, message: string): (ok: bool)
    ensures ok <==> !AllWhitespace(name) && !AllWhitespace(email) && !AllWhitespace(message)
  {
    TrimEmptyIff(name);
    TrimEmptyIff(email);
    TrimEmptyIff(message);
    Trim(name) != "" && Trim(email) != "" && Trim(message) != ""
  }

  /** Name "Anna", an empty email and message "Hej" is refused. */
  lemma MissingEmailRefused()
    ensures !Accepts("Anna", "", "Hej")
  {
  }

  /** The form's three fields and its status line. */
  class ContactForm {
    var name: string
    var email: string
    var message: string
    var status: string
    var statusColor: string

    constructor (name: string, email: string, message: string)
      ensures this.name == name && this.email == email && this.message == message
      ensures status == "" && statusColor == ""
    {
      this.name, this.email, this.message := name, email, message;
      status, statusColor := "", "";
    }

    /**
     * The submit handler. A refused submission shows the error in the danger colour and
     * leaves the fields as they were; an accepted one shows the thanks in the ok colour
     * and resets the form, emptying every field.
     */
    method Submit() returns (accepted: bool)
      modifies this
      ensures accepted == Accepts(old(name), old(email), old(message))
      ensures !accepted ==>
        status == ErrorText && statusColor == DangerColor &&
        name == old(name) && email == old(email) && message == old(message)
      ensures accepted ==>
        status == SuccessText && statusColor == OkColor &&
        name == "" && email == "" && message == ""
    {
      var n, e, m := Trim(name), Trim(email), Trim(message);
      if n == "" || e == "" || m == "" {
        statusColor := DangerColor;
        status := ErrorText;
        return false;
      }
      statusColor := OkColor;
      status := SuccessText;
      name, email, message := "", "", "";
      return true;
    }
  }
}
