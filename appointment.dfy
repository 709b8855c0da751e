/** lib/appointment.ts: a second copy of the phone pattern, the service and time-slot
    lists and `appointmentSchema`, written out again with its messages in place. The
    lemmas show it is the same validator as the one in lib/validations.ts, so every
    property proved there holds here too. */
module Appointment {
  import opened Regex
  import opened Schema
  import opened Records
  import Validations

  /** `phoneNumberRegex`, `/^\+234[789][01]\d{8}$/`. */
  const PhoneNumberRegex: seq<CharClass> :=
    [Literal('+'), Literal('2'), Literal('3'), Literal('4'), AnyOf("789"), AnyOf("01")] + Repeat(Digit, 8)

  const Services: seq<string> :=
    ["Initial Consultation", "Follow-up Appointment", "Assessment", "Group Session", "Other"]

  const Timeslots: seq<string> :=
    ["9:00 AM", "9:30 AM", "10:00 AM", "10:30 AM", "11:00 AM", "11:30 AM",
     "1:00 PM", "1:30 PM", "2:00 PM", "2:30 PM", "3:00 PM", "3:30 PM", "4:00 PM"]

  /** The fields of `appointmentSchema` that have rules, in declared order. The `service`
      enum is commented out, so `Services` constrains nothing. */
  const AppointmentPaths: seq<string> := ["firstName", "lastName", "email", "phoneNumer", "date", "time", "notes"]

  /** What each of those fields reports, in the same order. */
  function AppointmentFields(isEmail: string -> bool, form: Form): seq<seq<string>> {
    [StringField(form, "firstName", Required, Rule(|Value(form, "firstName")| >= 2, "Your first name is too short")),
     StringField(form, "lastName", Required, Rule(|Value(form, "lastName")| >= 2, "Your last name is too short")),
     StringField(form, "email", Required, Rule(isEmail(Value(form, "email")), InvalidEmail)),
     StringField(form, "phoneNumer", "Please enter a valid a phone number",
       Rule(FullMatch(PhoneNumberRegex, Value(form, "phoneNumer")), "Phone format (+2348012345678)")),
     StringField(form, "date", Required, []),
     EnumField(form, "time", Timeslots, "Please select a time", "Please select an option"),
     StringField(form, "notes", Required, Rule(|Value(form, "notes")| >= 12, "This note is too short"))]
  }

  /** `appointmentSchema`. */
  function AppointmentSchema(isEmail: string -> bool, form: Form): Outcome<AppointmentRequest> {
    Object(AppointmentPaths, AppointmentFields(isEmail, form),
      AppointmentRequest(Value(form, "firstName"), Value(form, "lastName"), Value(form, "email"),
        Value(form, "phoneNumer"), Value(form, "date"), Value(form, "time"), Value(form, "notes")))
  }

  /** The two copies declare the same constants. */
  lemma ConstantsAgree()
    ensures PhoneNumberRegex == Validations.PhoneNumberRegex
    ensures Services == Validations.Services
    ensures Timeslots == Validations.Timeslots
  {
  }

  /** The two `appointmentSchema`s give the same outcome on every form: the same record
      when they accept, the same issues in the same order when they reject. */
  lemma SchemasAgree(isEmail: string -> bool, form: Form)
    ensures AppointmentSchema(isEmail, form) == Validations.AppointmentSchema(isEmail, form)
  {
    ConstantsAgree();
    assert AppointmentFields(isEmail, form) == Validations.AppointmentFields(isEmail, form);
  }

  /** So this copy reports against each field what the schema declares. */
  lemma AppointmentSchemaReports(isEmail: string -> bool, form: Form, path: string)
    ensures MessagesAt(Errors(AppointmentSchema(isEmail, form)), path) ==
      Validations.AppointmentExpected(isEmail, form, path)
  {
    SchemasAgree(isEmail, form);
    Validations.AppointmentSchemaReports(isEmail, form, path);
  }

  /** And it accepts exactly the forms whose fields all meet their rules (the phone
      number, spelled `phoneNumer`, being a Nigerian mobile number), returning their text. */
  lemma AppointmentSchemaAccepts(isEmail: string -> bool, form: Form)
    ensures var r := AppointmentSchema(isEmail, form);
      && (r.Valid? <==>
           "firstName" in form && |form["firstName"]| >= 2
           && "lastName" in form && |form["lastName"]| >= 2
           && "email" in form && isEmail(form["email"])
           && "phoneNumer" in form && Validations.IsNigerianMobile(form["phoneNumer"])
           && "date" in form
           && "time" in form && form["time"] in Timeslots
           && "notes" in form && |form["notes"]| >= 12)
      && (r.Valid? ==> r.value == AppointmentRequest(form["firstName"], form["lastName"], form["email"],
                                                     form["phoneNumer"], form["date"], form["time"], form["notes"]))
  {
    ConstantsAgree();
    SchemasAgree(isEmail, form);
    Validations.AppointmentSchemaAccepts(isEmail, form);
  }

  /** No rule reads a name outside the schema's fields: a `service`, or any other extra
      entry, changes nothing in the outcome. */
  lemma IgnoresOtherFields(isEmail: string -> bool, form: Form, key: string, value: string)
    requires key !in AppointmentPaths
    ensures AppointmentSchema(isEmail, form[key := value]) == AppointmentSchema(isEmail, form)
  {
    var form' := form[key := value];
    assert forall path :: path != key ==> (path in form' <==> path in form) && Value(form', path) == Value(form, path);
    assert AppointmentFields(isEmail, form') == AppointmentFields(isEmail, form);
  }

  /** A note of exactly 12 characters meets the `notes` rule; a shorter one does not. */
  lemma NotesExamples(isEmail: string -> bool, form: Form)
    ensures MessagesAt(Errors(AppointmentSchema(isEmail, form["notes" := "Please call."])), "notes") == []
    ensures MessagesAt(Errors(AppointmentSchema(isEmail, form["notes" := "short"])), "notes") ==
      ["This note is too short"]
  {
    AppointmentSchemaReports(isEmail, form["notes" := "Please call."], "notes");
    AppointmentSchemaReports(isEmail, form["notes" := "short"], "notes");
  }
}
