/** The records the schemas produce when a form is accepted (what `z.infer` gives for
    each schema). Optional fields are `Option`s; every other field is the submitted text. */
module Records {
  import opened Schema

  datatype Registration = Registration(name: string, email: string, password: string, phone: Option<string>)

  datatype Login = Login(email: string, password: string)

  datatype ProfileUpdate = ProfileUpdate(name: string, phone: Option<string>)

  datatype MassIntention = MassIntention(name: string, intention: string, massId: string)

  datatype Thanksgiving = Thanksgiving(description: string, massId: string)

  /** `type` is a reserved word in Dafny, so the payment's `type` field is `paymentType` here.
      `amount` is the submitted text that the schema hands to `Number`. */
  datatype Payment = Payment(
    amount: string,
    paymentType: string,
    category: Option<string>,
    description: Option<string>,
    goalId: Option<string>)

  datatype ChurchInfo = ChurchInfo(
    name: string,
    address: string,
    phone: string,
    email: string,
    mission: Option<string>,
    vision: Option<string>,
    history: Option<string>)

  /** The phone field keeps the schemas' own spelling, `phoneNumer`. */
  datatype AppointmentRequest = AppointmentRequest(
    firstName: string,
    lastName: string,
    email: string,
    phoneNumer: string,
    date: string,
    time: string,
    notes: string)

  datatype ContactMessage = ContactMessage(name: string, email: string, subject: string, message: string, phone: string)
}
