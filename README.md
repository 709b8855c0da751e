# Form validation rules of a parish web application

The application validates every form it submits with a Zod schema. The schemas are:
registration, login, profile update, mass intention, thanksgiving, payment, church
information, appointment request and contact message. They live in `lib/validations.ts`.
`lib/appointment.ts` holds a second copy of the appointment schema, with its own phone
pattern and its own service and time-slot lists.

This project models each schema as a pure function. Its input is the submitted form, a
map from field name to text; a field the form does not send is absent from the map. Its
result is an `Outcome`: either the parsed record, or the list of issues. Each issue is a
field name plus the message the schema declares for the rule that failed.

For each schema the project proves three things:

- **Declared messages.** `…SchemaReports` fixes, for any field name, the exact messages
  reported against it, in their declared order. A reference function, `…Expected`, spells
  out what the schema declares for each field. An absent value gets its "required"
  message. A present value gets the message of every rule it breaks. Any name that is not
  a field of the schema gets nothing.
- **Acceptance.** `…SchemaAccepts` gives the exact condition for acceptance: both
  directions of an if-and-only-if over the fields' rules. An accepted record is the
  submitted text, field for field.
- **The phone pattern and the password rules.** The phone pattern is proved to accept
  exactly the Nigerian mobile numbers. The password refinements each report their own
  message.

The copy in `lib/appointment.ts` is proved to give the same outcome as the one in
`lib/validations.ts` on every form, including the same issues in the same order. It is
also proved to ignore every field it does not name, `service` included.

Modules:

- `Regex`: the character-class patterns the schemas use. `FullMatch` is `^…$` and
  `Test` is an unanchored `/[…]/`.
- `Schema`: the parts of Zod the schemas use.
  - `z.object` runs every field and concatenates their issues in field order.
  - A string field reports its missing-value message when absent. When present, it
    reports every refinement that fails, in order.
  - An enum field reports its missing-value message when absent, its not-listed message
    for a value outside the list, and nothing for a listed value.
  - `optional()` accepts any value, and absence too.
  - The lemmas `ObjectMessagesAt`, `ObjectReports` and `ReportedAt` describe which
    messages end up against which field.
- `Records`: the parsed records.
- `Validations`: `lib/validations.ts`.
- `Appointment`: `lib/appointment.ts`.

Some behaviour comes from Zod rather than from the schemas:

- An absent required value with no `required_error` reports Zod's own "Required".
- `email()` with no message reports "Invalid email".
- `errorMap` on the payment `type` turns every issue of that field into "Invalid payment
  type", an absent value included.
- For `time`, the model pairs each option with the case its name suggests: an absent
  value reports the `required_error`, "Please select a time", and a value outside
  `TIMESLOTS` reports the `message`, "Please select an option". This pairing is a reading
  of the option names, not established Zod behaviour. Zod versions handle a `message`
  given beside `required_error` differently. A version may report "Please select an
  option" in both cases, or ignore `message` and report its own enum message for a value
  outside the list.

Lengths are not trimmed: `min(n)` is applied to the raw string, and nothing trims it.
White space therefore counts toward a minimum, and whitespace-only text is not treated as
missing. `Validations.UntrimmedLength` shows that a name of two spaces passes `min(2)`.

## Model

| member | source | states |
|---|---|---|
| Regex.FullMatch | lib/validations.ts:2 | an anchored pattern of single-character classes matches exactly the inputs with one character per class, each character in its class |
| Regex.Test | lib/validations.ts:34-36 | an unanchored one-class pattern matches exactly when some character of the input is in the class |
| Validations.PhoneRegexMatchesExactly | lib/validations.ts:2 | `/^\+234[789][01]\d{8}$/` accepts a string exactly when it has 14 characters: `+234`, then 7, 8 or 9, then 0 or 1, then eight ASCII digits |
| Validations.PhoneAccepted | lib/validations.ts:122-126 | `+2348012345678` and `+2347112345678` match the phone pattern |
| Validations.PhoneRejected | lib/validations.ts:122-126 | `+2349212345678` (fifth digit 2, not 0 or 1) and `08012345678` (no country code) do not match |
| Validations.TimeslotsDistinct | lib/validations.ts:11-25 | `TIMESLOTS` has 13 entries and they are pairwise distinct |
| Validations.PasswordMessages | lib/validations.ts:31-36 | the password refinements report nothing exactly when the password is strong; each message is reported exactly when its own rule fails; no other message is reported |
| Validations.StrongPasswordExample | lib/validations.ts:31-36 | `Passw0rd` meets all four password rules |
| Validations.LowercasePasswordMessages | lib/validations.ts:31-36 | a password of at least 8 letters, all lowercase, reports exactly the missing uppercase and number messages, in that order |
| Validations.WeakPasswordExample | lib/validations.ts:31-36 | `password` reports the missing uppercase and number messages, in that order |
| Validations.RegisterFieldsDeclared | lib/validations.ts:28-38 | each field of `registerSchema` reports exactly what the schema declares for it |
| Validations.RegisterSchemaReports | lib/validations.ts:28-38 | against each of `name`, `email` and `password`, the declared messages: "Required" when absent, the `min`/`email` message, or every failed password message in order; nothing against `phone` or any other name |
| Validations.RegisterSchemaAccepts | lib/validations.ts:28-38 | accepted exactly when the name has at least 2 characters, the email passes `email()` and the password is strong, whatever `phone` is; the record is the submitted text, `phone` present or absent |
| Validations.LoginFieldsDeclared | lib/validations.ts:41-44 | each field of `loginSchema` reports exactly what the schema declares for it |
| Validations.LoginSchemaReports | lib/validations.ts:41-44 | "Please enter a valid email address" against a bad email; "Password is required" exactly when the password is the empty string |
| Validations.LoginSchemaAccepts | lib/validations.ts:41-44 | accepted exactly when both fields are present, the email passes and the password is non-empty; the record is the submitted text |
| Validations.ProfileUpdateFieldsDeclared | lib/validations.ts:47-50 | each field of `profileUpdateSchema` reports exactly what the schema declares for it |
| Validations.ProfileUpdateSchemaReports | lib/validations.ts:47-50 | "Name must be at least 2 characters" exactly when a present name is shorter than 2; nothing against `phone` |
| Validations.ProfileUpdateSchemaAccepts | lib/validations.ts:47-50 | accepted exactly when the name has at least 2 characters, whatever `phone` is; the record is the submitted text |
| Validations.MassIntentionFieldsDeclared | lib/validations.ts:53-57 | each field of `massIntentionSchema` reports exactly what the schema declares for it |
| Validations.MassIntentionSchemaReports | lib/validations.ts:53-57 | "Name is required", "Intention is required" and "Mass selection is required" each exactly when that field is the empty string |
| Validations.MassIntentionSchemaAccepts | lib/validations.ts:53-57 | accepted exactly when all three fields are present and non-empty; the record is the submitted text |
| Validations.ThanksgivingFieldsDeclared | lib/validations.ts:60-63 | each field of `thanksgivingSchema` reports exactly what the schema declares for it |
| Validations.ThanksgivingSchemaReports | lib/validations.ts:60-63 | "Description is required" and "Mass selection is required" each exactly when that field is the empty string |
| Validations.ThanksgivingSchemaAccepts | lib/validations.ts:60-63 | accepted exactly when both fields are present and non-empty; the record is the submitted text |
| Validations.PaymentFieldsDeclared | lib/validations.ts:66-77 | each field of `paymentSchema` reports exactly what the schema declares for it |
| Validations.PaymentSchemaReports | lib/validations.ts:66-77 | "Amount is required" exactly when the amount is the empty string; "Invalid payment type" exactly when `type` is absent or neither `DONATION` nor `OFFERING`; nothing against the optional fields |
| Validations.PaymentSchemaAccepts | lib/validations.ts:66-77 | accepted exactly when the amount is non-empty and the type is `DONATION` or `OFFERING`; the record carries the submitted strings and the optional fields as sent |
| Validations.ChurchInfoFieldsDeclared | lib/validations.ts:80-88 | each field of `churchInfoSchema` reports exactly what the schema declares for it |
| Validations.ChurchInfoSchemaReports | lib/validations.ts:80-88 | "Church name is required", "Address is required" and "Phone number is required" each exactly when that field is the empty string; the email message against a bad email |
| Validations.ChurchInfoSchemaAccepts | lib/validations.ts:80-88 | accepted exactly when name, address and phone are non-empty and the email passes, whatever mission, vision and history are; the record is the submitted text |
| Validations.AppointmentFieldsDeclared | lib/validations.ts:90-111 | each field of `appointmentSchema` reports exactly what the schema declares for it |
| Validations.AppointmentSchemaReports | lib/validations.ts:90-111 | separate messages for a short first name and a short last name; "Please enter a valid a phone number" for an absent phone and "Phone format (+2348012345678)" for one that is not a Nigerian mobile number; nothing for any present date; "Please select a time" when absent and "Please select an option" outside `TIMESLOTS`; "This note is too short" below 12 characters; nothing against `service` |
| Validations.AppointmentSchemaAccepts | lib/validations.ts:90-111 | accepted exactly when both names have at least 2 characters, the email passes, the phone is a Nigerian mobile number, a date is present, the time is in `TIMESLOTS` and the note has at least 12 characters; the record is the submitted text |
| Validations.ContactFieldsDeclared | lib/validations.ts:113-127 | each field of `contactSchema` reports exactly what the schema declares for it |
| Validations.ContactSchemaReports | lib/validations.ts:113-127 | each failure against its own field: name under 2, subject under 2, message under 11 characters, a bad email, and a phone that is absent or not a Nigerian mobile number |
| Validations.ContactSchemaAccepts | lib/validations.ts:113-127 | rejected exactly when some field fails its rule; the record is the submitted text |
| Validations.UntrimmedLength | lib/validations.ts:29 | a name of two spaces passes `min(2)`, and a one-space mass-intention name is not reported as missing: lengths count white space |
| Validations.RegisterSchema | lib/validations.ts:28-38 | `registerSchema` as a function of the form; its contract is `RegisterSchemaReports` and `RegisterSchemaAccepts` |
| Validations.LoginSchema | lib/validations.ts:41-44 | `loginSchema`; its contract is `LoginSchemaReports` and `LoginSchemaAccepts` |
| Validations.ProfileUpdateSchema | lib/validations.ts:47-50 | `profileUpdateSchema`; its contract is `ProfileUpdateSchemaReports` and `ProfileUpdateSchemaAccepts` |
| Validations.MassIntentionSchema | lib/validations.ts:53-57 | `massIntentionSchema`; its contract is `MassIntentionSchemaReports` and `MassIntentionSchemaAccepts` |
| Validations.ThanksgivingSchema | lib/validations.ts:60-63 | `thanksgivingSchema`; its contract is `ThanksgivingSchemaReports` and `ThanksgivingSchemaAccepts` |
| Validations.PaymentSchema | lib/validations.ts:66-77 | `paymentSchema`; its contract is `PaymentSchemaReports` and `PaymentSchemaAccepts` |
| Validations.ChurchInfoSchema | lib/validations.ts:80-88 | `churchInfoSchema`; its contract is `ChurchInfoSchemaReports` and `ChurchInfoSchemaAccepts` |
| Validations.AppointmentSchema | lib/validations.ts:90-111 | `appointmentSchema`; its contract is `AppointmentSchemaReports` and `AppointmentSchemaAccepts` |
| Validations.ContactSchema | lib/validations.ts:113-127 | `contactSchema`; its contract is `ContactSchemaReports` and `ContactSchemaAccepts` |
| Appointment.AppointmentSchema | lib/appointment.ts:30-51 | the second `appointmentSchema`; its contract is `Appointment.SchemasAgree`, `Appointment.AppointmentSchemaReports` and `Appointment.AppointmentSchemaAccepts` |
| Schema.Object | lib/validations.ts:28-38 | `z.object(...).safeParse`: the issues are the fields' issues in field order; the outcome is valid exactly when no field reports anything, and then it is the record |
| Schema.StringField | lib/validations.ts:29-36 | a required `z.string()` with its refinements: absent gives only the missing-value message, present gives every failed refinement; stated for each schema by the `…FieldsDeclared` and `…SchemaReports` lemmas |
| Schema.EnumField | lib/validations.ts:105-109 | a `z.enum`: absent gives the missing-value message, unlisted the not-listed one, listed nothing; stated by `PaymentSchemaReports` and `AppointmentSchemaReports` |
| Schema.Optional | lib/validations.ts:37 | `optional()`: any value or none is accepted; stated by the `…SchemaAccepts` lemmas, whose condition never mentions an optional field and whose record carries it as sent |
| Schema.ObjectMessagesAt | lib/validations.ts:28-38 | in a `z.object` with distinct field names, the messages reported against a field are exactly that field's own, in order |
| Schema.ObjectReports | lib/validations.ts:28-38 | a `z.object` whose fields report what a reference declares reports, against every name, what the reference declares, and nothing against a name that is not a field |
| Schema.ReportedAt | lib/validations.ts:28-38 | an issue with a given field and message is reported exactly when that message is among the messages against that field |
| Schema.NothingReported | lib/validations.ts:28-38 | no issue at all exactly when no field has any message |
| Appointment.ConstantsAgree | lib/appointment.ts:5-28 | the phone pattern, `SERVICES` and `TIMESLOTS` are the same as in `lib/validations.ts` |
| Appointment.SchemasAgree | lib/appointment.ts:30-51 | this `appointmentSchema` gives the same outcome as the one in `lib/validations.ts` on every form: the same record, or the same issues in the same order |
| Appointment.AppointmentSchemaReports | lib/appointment.ts:30-51 | against each field, the messages the appointment schema declares: for example, the two name messages, the phone messages and the time-slot messages |
| Appointment.AppointmentSchemaAccepts | lib/appointment.ts:30-51 | accepted exactly when every field meets its rule, the phone `phoneNumer` being a Nigerian mobile number and the time one of this file's `TIMESLOTS`; the record is the submitted text |
| Appointment.IgnoresOtherFields | lib/appointment.ts:39-44 | a `service` entry, or any entry whose name is not a field, changes nothing in the outcome |
| Appointment.NotesExamples | lib/appointment.ts:50 | a 12-character note meets the `notes` rule; `short` gets "This note is too short" |

## Left out

- Email syntax: the check behind `z.string().email()` is inside Zod and not visible. Every schema that uses it takes it as the parameter `isEmail`.
- `Number(val)` on the payment `amount`: this is JavaScript number parsing, which is floating point. The record keeps the amount as the submitted text.
- Values that are not strings (numbers, `null`, objects). Such values would trigger Zod's `invalid_type_error` messages ("This time does not exist"). A form here submits only text or nothing.
- The order and shape of Zod's issue objects beyond what is modelled: each issue's field and message, in field order. Issue codes, nested paths and `flatten()`/`format()` are not modelled.
- Unicode: `min(n)` in JavaScript counts UTF-16 code units, and the model counts characters. The two differ only for characters outside the Basic Multilingual Plane.
- The React pages and components, the donations API route and the build configuration: UI state, data fetching and HTTP plumbing, with no validation logic.
