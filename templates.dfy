/** The e-mail templating of src/services/emailTemplates.service.ts: `{{key}}`
    placeholders replaced, key by key in the order of the record's entries,
    by the stringified fields of an OTP request. The mail transport is an
    outcome passed in. */
module Templates {
  import opened Wrappers
  import opened JsText
  import Otp

  /** The text `{{key}}` the pattern of one entry matches. */
  function Placeholder(key: string): (p: string)
    ensures |p| == |key| + 4 && p[0] == '{' && p[1] == '{'
  {
    "{{" + key + "}}"
  }

  ghost predicate OccursAt(s: string, pat: string, i: int) {
    0 <= i && i + |pat| <= |s| && s[i..i + |pat|] == pat
  }

  /** `pat` occurs nowhere in `s`. */
  ghost predicate Absent(s: string, pat: string) {
    forall i :: !OccursAt(s, pat, i)
  }

  /** `s.replace(/pat/g, value)` for a pattern without regular-expression
      metacharacters: a left-to-right scan that replaces each occurrence and
      resumes after it, so occurrences never overlap. */
  function ReplaceAll(s: string, pat: string, value: string): string
    requires pat != []
    decreases |s|
  {
    if |s| < |pat| then s
    else if s[..|pat|] == pat then value + ReplaceAll(s[|pat|..], pat, value)
    else [s[0]] + ReplaceAll(s[1..], pat, value)
  }

  /** A text in which the placeholder does not occur comes back unchanged. */
  lemma {:induction false} ReplaceAbsent(s: string, pat: string, value: string)
    requires pat != [] && Absent(s, pat)
    ensures ReplaceAll(s, pat, value) == s
    decreases |s|
  {
    if |s| >= |pat| {
      assert !OccursAt(s, pat, 0);
      forall i ensures !OccursAt(s[1..], pat, i) {
        if OccursAt(s[1..], pat, i) {
          assert s[1..][i..i + |pat|] == s[i + 1..i + 1 + |pat|];
          assert OccursAt(s, pat, i + 1);
        }
      }
      ReplaceAbsent(s[1..], pat, value);
      assert [s[0]] + s[1..] == s;
    }
  }

  /** The first occurrence is replaced and the scan carries on behind it: when
      no occurrence starts inside `part`, the text up to the placeholder is kept
      and the rest is scanned afresh. */
  lemma {:induction false} ReplaceAfter(part: string, pat: string, value: string, rest: string)
    requires pat != [] && Absent(part + pat[..|pat| - 1], pat)
    ensures ReplaceAll(part + pat + rest, pat, value) == part + value + ReplaceAll(rest, pat, value)
    decreases |part|
  {
    var s := part + pat + rest;
    if part == [] {
      assert s == pat + rest;
      assert s[..|pat|] == pat && s[|pat|..] == rest;
    } else {
      var prefix := part + pat[..|pat| - 1];
      assert s[..|pat|] == prefix[..|pat|];
      assert !OccursAt(prefix, pat, 0);
      var shorter := part[1..] + pat[..|pat| - 1];
      assert shorter == prefix[1..];
      forall i ensures !OccursAt(shorter, pat, i) {
        if OccursAt(shorter, pat, i) {
          assert shorter[i..i + |pat|] == prefix[i + 1..i + 1 + |pat|];
          assert OccursAt(prefix, pat, i + 1);
        }
      }
      ReplaceAfter(part[1..], pat, value, rest);
      assert s[1..] == part[1..] + pat + rest;
      assert [s[0]] + (part[1..] + value + ReplaceAll(rest, pat, value)) == part + value + ReplaceAll(rest, pat, value);
    }
  }

  /** The pattern is global: both occurrences of the placeholder are replaced,
      not only the first. */
  lemma ReplacesEveryOccurrence(a: string, b: string, c: string, pat: string, value: string)
    requires pat != []
    requires Absent(a + pat[..|pat| - 1], pat) && Absent(b + pat[..|pat| - 1], pat) && Absent(c, pat)
    ensures ReplaceAll(a + pat + b + pat + c, pat, value) == a + value + b + value + c
  {
    assert a + pat + b + pat + c == a + pat + (b + pat + c);
    ReplaceAfter(a, pat, value, b + pat + c);
    ReplaceAfter(b, pat, value, c);
    ReplaceAbsent(c, pat, value);
  }

  /** A placeholder standing alone is replaced by the value. */
  lemma ReplaceWhole(pat: string, value: string)
    requires pat != []
    ensures ReplaceAll(pat, pat, value) == value
  {
    assert Absent("" + pat[..|pat| - 1], pat);
    ReplaceAfter("", pat, value, "");
    assert "" + pat + "" == pat;
  }

  /** `replaceTemplateVariables`: the reduce over the record's entries, each
      replacing its placeholder in what the earlier entries produced. */
  function ReplaceTemplateVariables(template: string, data: seq<(string, string)>): (r: string)
    ensures data == [] ==> r == template
    decreases |data|
  {
    if data == [] then template
    else ReplaceTemplateVariables(ReplaceAll(template, Placeholder(data[0].0), data[0].1), data[1..])
  }

  /** Entries apply in order: the last entry works on what all the others left. */
  lemma {:induction false} EntriesApplyInOrder(template: string, data: seq<(string, string)>, key: string, value: string)
    ensures ReplaceTemplateVariables(template, data + [(key, value)])
      == ReplaceAll(ReplaceTemplateVariables(template, data), Placeholder(key), value)
    decreases |data|
  {
    if data == [] {
      assert data + [(key, value)] == [(key, value)];
      assert [(key, value)][1..] == [];
    } else {
      assert (data + [(key, value)])[1..] == data[1..] + [(key, value)];
      EntriesApplyInOrder(ReplaceAll(template, Placeholder(data[0].0), data[0].1), data[1..], key, value);
    }
  }

  /** A value that itself holds the placeholder of a later key is substituted
      again by that later entry. */
  lemma LaterEntrySubstitutesAgain(k1: string, k2: string, v: string)
    ensures ReplaceTemplateVariables(Placeholder(k1), [(k1, Placeholder(k2)), (k2, v)]) == v
  {
    ReplaceWhole(Placeholder(k1), Placeholder(k2));
    ReplaceWhole(Placeholder(k2), v);
    assert [(k1, Placeholder(k2)), (k2, v)][1..] == [(k2, v)];
  }

  /** `s` has no two adjacent opening braces. */
  predicate NoDoubleBrace(s: string) {
    forall i :: 0 <= i < |s| - 1 ==> !(s[i] == '{' && s[i + 1] == '{')
  }

  lemma OccurrenceOpensWithBraces(s: string, pat: string, i: int)
    requires |pat| >= 2 && pat[0] == '{' && pat[1] == '{' && OccursAt(s, pat, i)
    ensures 0 <= i < |s| - 1 && s[i] == '{' && s[i + 1] == '{'
  {
    assert s[i] == s[i..i + |pat|][0];
    assert s[i + 1] == s[i..i + |pat|][1];
  }

  /** A template without "{{" is returned unchanged, whatever the record. */
  lemma {:induction false} NoPlaceholdersUnchanged(template: string, data: seq<(string, string)>)
    requires NoDoubleBrace(template)
    ensures ReplaceTemplateVariables(template, data) == template
    decreases |data|
  {
    if data != [] {
      var pat := Placeholder(data[0].0);
      forall i ensures !OccursAt(template, pat, i) {
        if OccursAt(template, pat, i) {
          OccurrenceOpensWithBraces(template, pat, i);
        }
      }
      ReplaceAbsent(template, pat, data[0].1);
      NoPlaceholdersUnchanged(template, data[1..]);
    }
  }

  /** The values of an object `toRecord` stringifies. Dates print through the
      runtime's local date format, given as `dateText`. */
  datatype JsValue = JsString(text: string) | JsNumber(n: int) | JsBool(b: bool) | JsNull | JsUndefined | JsDate(ms: int)

  /** `String(value)`. */
  function Stringify(v: JsValue, dateText: int -> string): (r: string)
    ensures v.JsString? ==> r == v.text
    ensures v.JsNumber? && v.n >= 0 ==> AllDigits(r)
  {
    match v
    case JsString(t) => t
    case JsNumber(n) => IntToDecimal(n)
    case JsBool(b) => if b then "true" else "false"
    case JsNull => "null"
    case JsUndefined => "undefined"
    case JsDate(ms) => dateText(ms)
  }

  function Keys<V>(entries: seq<(string, V)>): (ks: seq<string>)
    ensures |ks| == |entries|
  {
    seq(|entries|, i requires 0 <= i < |entries| => entries[i].0)
  }

  /** `toRecord`: the same keys in the same order, each value stringified. */
  function ToRecord(obj: seq<(string, JsValue)>, dateText: int -> string): (r: seq<(string, string)>)
    ensures Keys(r) == Keys(obj)
    ensures forall i :: 0 <= i < |r| ==> r[i].1 == Stringify(obj[i].1, dateText)
  {
    seq(|obj|, i requires 0 <= i < |obj| => (obj[i].0, Stringify(obj[i].1, dateText)))
  }

  function OtpTypeName(t: Otp.OtpType): string {
    match t
    case USER_EMAIL_REGISTRATION => "USER_EMAIL_REGISTRATION"
    case OtherOtpType(name) => name
  }

  /** The entries of an OTP request row, field by field. */
  function OtpEntries(req: Otp.OtpRequest): seq<(string, JsValue)> {
    [("id", JsString(req.id)), ("email", JsString(req.email)), ("otpType", JsString(OtpTypeName(req.otpType))),
     ("otpCode", JsString(req.otpCode)), ("otpExpiresAt", JsDate(req.otpExpiresAt)), ("updatedAt", JsDate(req.updatedAt))]
  }

  datatype EmailTemplate = EmailTemplate(id: string, subjectTemplate: string, template: string)

  datatype Email = Email(to: string, subject: string, body: string)

  /** `sendUserRegistrationOtpEmail`: the stored template (or none), the mail
      built from one record of the request, and the transport's failure message
      when sending fails. */
  function SendUserRegistrationOtpEmail(stored: Option<EmailTemplate>, req: Otp.OtpRequest,
                                        dateText: int -> string, sendFailure: Option<string>): (r: Result<Email>)
    ensures stored.None? ==> r == Err("Internal exception: Could not find email template for user registration")
    ensures stored.Some? && sendFailure.Some? ==>
      r == Err("Internal Exception: Error occurred while sending email to user. " + sendFailure.value)
    ensures r.Ok? <==> stored.Some? && sendFailure.None?
    ensures r.Ok? ==>
      var records := ToRecord(OtpEntries(req), dateText);
      && r.value.to == req.email
      && r.value.subject == ReplaceTemplateVariables(stored.value.subjectTemplate, records)
      && r.value.body == ReplaceTemplateVariables(stored.value.template, records)
  {
    match stored
    case None => Err("Internal exception: Could not find email template for user registration")
    case Some(t) =>
      var records := ToRecord(OtpEntries(req), dateText);
      var subject := ReplaceTemplateVariables(t.subjectTemplate, records);
      var body := ReplaceTemplateVariables(t.template, records);
      match sendFailure
      case Some(m) =>
        Err("Internal Exception: Error occurred while sending email to user. " + m)
      case None => Ok(Email(req.email, subject, body))
  }

  /** Subject and body come from the same record: a template whose subject and
      body are the same text yields the same subject and body. */
  lemma SubjectAndBodyShareRecord(t: EmailTemplate, req: Otp.OtpRequest, dateText: int -> string)
    requires t.subjectTemplate == t.template
    ensures var r := SendUserRegistrationOtpEmail(Some(t), req, dateText, None);
      r.Ok? && r.value.subject == r.value.body
  {
  }
}
