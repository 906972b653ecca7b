/** The submit handler of the contact form (`initContactForm`).

    The handler reads the three fields, rejects the submission when one of
    them is empty or missing, then when the email address does not match
    `isValidEmail`, and otherwise navigates to a `mailto:` link built from the
    fields, shows a success notification and resets the form. Every outcome
    is announced with `showNotification`.

    `Decide` is the decision as a function of the field values;
    `encodeURIComponent` is a parameter `enc` whose workings are not
    modelled. Class `ContactForm` is the handler acting on the form, the
    window location and the page's notification slot. */
module Contact {
  import opened Wrappers
  import Email
  import Notifications

  const MissingFields: string := "Veuillez remplir tous les champs"
  const BadEmail: string := "Veuillez entrer une adresse email valide"
  const ThankYou: string := "Merci pour votre message ! Votre client email va s'ouvrir."

  /** The link up to the encoded subject. */
  const MailtoPrefix: string := "mailto:nolan974pro@gmail.com?subject="
  /** What separates the encoded subject from the encoded body. */
  const BodyKey: string := "&body="

  /** A field as `FormData.get` returns it: `None` for a field the form
      lacks (`null`). It passes the `!field` test only when present and
      non-empty. */
  predicate Filled(f: Option<string>) {
    f.Some? && f.value != ""
  }

  /** The handler either rejects the submission with an error message, or
      sends it by navigating to a `mailto:` link. */
  datatype Outcome = Rejected(error: string) | Sent(mailto: string)

  function Subject(name: string): string {
    "Contact Portfolio - " + name
  }

  function Body(name: string, email: string, message: string): string {
    "Nom: " + name + "\nEmail: " + email + "\n\nMessage:\n" + message
  }

  function MailtoLink(enc: string -> string, name: string, email: string, message: string): string {
    MailtoPrefix + enc(Subject(name)) + BodyKey + enc(Body(name, email, message))
  }

  /** The decision of the submit handler. */
  function Decide(enc: string -> string, name: Option<string>, email: Option<string>, message: Option<string>): (o: Outcome)
    ensures o.Sent? <==> Filled(name) && Filled(email) && Filled(message) && Email.IsValidEmail(email.value)
  {
    if !Filled(name) || !Filled(email) || !Filled(message) then Rejected(MissingFields)
    else if !Email.IsValidEmail(email.value) then Rejected(BadEmail)
    else Sent(MailtoLink(enc, name.value, email.value, message.value))
  }

  /** The text of the notification that announces an outcome. */
  function Notice(o: Outcome): string {
    match o
    case Rejected(error) => error
    case Sent(_) => ThankYou
  }

  /** The type of the notification that announces an outcome. */
  function NoticeKind(o: Outcome): string {
    if o.Sent? then "success" else "error"
  }

  /** A missing or empty field is reported as such, whatever the email
      address looks like: its format is not checked. */
  lemma MissingFieldFirst(enc: string -> string, name: Option<string>, email: Option<string>, message: Option<string>)
    requires !Filled(name) || !Filled(email) || !Filled(message)
    ensures Decide(enc, name, email, message) == Rejected(MissingFields)
  {
  }

  /** With every field filled in, a malformed address is reported. */
  lemma MalformedEmailRejected(enc: string -> string, name: string, email: string, message: string)
    requires name != "" && email != "" && message != ""
    ensures Decide(enc, Some(name), Some(email), Some(message)) == Rejected(BadEmail)
        <==> !Email.WellFormedAddress(email)
  {
    Email.ValidEmailIff(email);
  }

  /** Every outcome is announced: an error with an error notification, a
      submission with the thank-you notification of type success. */
  lemma OutcomeAnnounced(enc: string -> string, name: Option<string>, email: Option<string>, message: Option<string>)
    ensures var o := Decide(enc, name, email, message);
      && (o.Rejected? ==> NoticeKind(o) == "error" && Notice(o) in {MissingFields, BadEmail})
      && (o.Sent? ==> NoticeKind(o) == "success" && Notice(o) == ThankYou)
  {
  }

  /** Splits a link of the shape `MailtoLink` builds back into its encoded
      subject and encoded body. */
  function Params(link: string): (p: Option<(string, string)>)
    ensures p.Some? ==> link == MailtoPrefix + p.value.0 + BodyKey + p.value.1 && '&' !in p.value.0
  {
    if |link| < |MailtoPrefix| || link[..|MailtoPrefix|] != MailtoPrefix then None
    else
      var rest := link[|MailtoPrefix|..];
      var k := Email.IndexOf(rest, '&');
      if k + |BodyKey| <= |rest| && rest[k..k + |BodyKey|] == BodyKey then
        Reassembled(link, MailtoPrefix, BodyKey, k);
        Some((rest[..k], rest[k + |BodyKey|..]))
      else None
  }

  /** A string that starts with `prefix` and holds `key` at offset `k`
      after it is the prefix, the part before the key, the key, and the
      part after it. */
  lemma Reassembled(link: string, prefix: string, key: string, k: nat)
    requires |prefix| <= |link| && link[..|prefix|] == prefix
    requires k + |key| <= |link| - |prefix| && link[|prefix|..][k..k + |key|] == key
    ensures var rest := link[|prefix|..];
      link == prefix + rest[..k] + key + rest[k + |key|..]
  {
    var rest := link[|prefix|..];
    assert rest == rest[..k] + key + rest[k + |key|..];
    assert link == prefix + rest;
  }

  /** `encodeURIComponent` escapes `&`, so the subject and the body of the
      link can be told apart again. */
  lemma MailtoRoundTrip(enc: string -> string, name: string, email: string, message: string)
    requires forall s :: '&' !in enc(s)
    ensures Params(MailtoLink(enc, name, email, message)) == Some((enc(Subject(name)), enc(Body(name, email, message))))
  {
    var subject := enc(Subject(name));
    var body := enc(Body(name, email, message));
    var link := MailtoLink(enc, name, email, message);
    assert link == MailtoPrefix + (subject + BodyKey + body);
    assert link[..|MailtoPrefix|] == MailtoPrefix;
    var rest := link[|MailtoPrefix|..];
    assert rest == subject + BodyKey + body;
    assert rest[|subject|..|subject| + |BodyKey|] == BodyKey;
    assert rest[|subject| + |BodyKey|..] == body;
    var k := Email.IndexOf(rest, '&');
    assert rest[|subject|] == '&';
    assert k == |subject|;
    assert rest[..k] == subject;
  }

  /** The contact form, the window location and the page. */
  class ContactForm {
    var name: Option<string>
    var email: Option<string>
    var message: Option<string>
    /** The default value of each field: the value it had when the page
        was loaded, which `contactForm.reset()` restores. */
    const nameDefault: Option<string>
    const emailDefault: Option<string>
    const messageDefault: Option<string>
    /** `window.location.href` once the handler has navigated. */
    var location: Option<string>
    const page: Notifications.Page

    /** The form as loaded, holding its default values. */
    constructor (page: Notifications.Page, name: Option<string>, email: Option<string>, message: Option<string>)
      ensures this.page == page && location == None
      ensures this.name == nameDefault == name && this.email == emailDefault == email
      ensures this.message == messageDefault == message
    {
      this.page := page;
      this.name, this.email, this.message := name, email, message;
      nameDefault, emailDefault, messageDefault := name, email, message;
      location := None;
    }

    /** The submit handler, with `enc` for `encodeURIComponent`. */
    method Submit(enc: string -> string) returns (outcome: Outcome)
      modifies this, page
      ensures outcome == Decide(enc, old(name), old(email), old(message))
      ensures page.State() == Notifications.Shown(old(page.State()), Notice(outcome), NoticeKind(outcome))
      ensures outcome.Rejected? ==>
        (location == old(location) && name == old(name) && email == old(email) && message == old(message))
      ensures outcome.Sent? ==>
        (location == Some(outcome.mailto)
         && name == nameDefault && email == emailDefault && message == messageDefault)
    {
      if !Filled(name) || !Filled(email) || !Filled(message) {
        outcome := Rejected(MissingFields);
        var _ := page.ShowNotification(MissingFields, "error");
        return;
      }
      if !Email.IsValidEmail(email.value) {
        outcome := Rejected(BadEmail);
        var _ := page.ShowNotification(BadEmail, "error");
        return;
      }
      var link := MailtoLink(enc, name.value, email.value, message.value);
      outcome := Sent(link);
      location := Some(link);
      var _ := page.ShowNotification(ThankYou, "success");
      // contactForm.reset()
      name, email, message := nameDefault, emailDefault, messageDefault;
    }
  }
}
