/** The records of the construction-job tracker. A project owns all of its child lists, and
    every edit builds a new project value from the old one (object spread), so every record
    here is a datatype. */
module Types {
  import opened Wrappers

  /** Record identifiers: the numbers `Date.now()` produced when the record was created. */
  type Id = int

  /** A form field as it reaches a handler: the text the user typed, which the guards test
      (an empty string is falsy), and the number `parseFloat` or `Number` makes of it. */
  datatype Input<T> = Input(text: string, value: T)
  {
    predicate Blank() { text == "" }
  }

  datatype TeamMember = TeamMember(id: Id, name: string, role: string, hourlyRate: real)

  datatype HoursEntry = HoursEntry(id: Id, teamMemberId: Id, date: string, hours: real)

  datatype ChangeOrder = ChangeOrder(id: Id, description: string, price: real)

  /** A material's quantity: the trimmed text the user typed, or the number 1 the form
      stores when that text is blank. */
  datatype Quantity = Typed(text: string) | One

  datatype Material = Material(id: Id, name: string, cost: real, quantity: Quantity, date: string)

  datatype TravelExpense = TravelExpense(
    id: Id, teamMemberId: Id, date: string, miles: real, mpg: real,
    fuelType: string, cost: real, description: string)

  /** The project's price per gallon for each fuel type. */
  datatype FuelPrices = FuelPrices(gas: real, diesel: real)

  datatype Invoice = Invoice(id: Id, amount: real, date: string, description: string, status: string)

  datatype Payment = Payment(id: Id, amount: real, date: string, description: string)

  /** A project. `id` is absent on projects the project list creates; the lists that older
      projects may lack, and the fuel price settings, are optional. */
  datatype Project = Project(
    id: Option<Id>,
    name: string,
    agreedPrice: real,
    description: string,
    status: string,
    teamMembers: seq<TeamMember>,
    hours: seq<HoursEntry>,
    changeOrders: seq<ChangeOrder>,
    materials: seq<Material>,
    travelExpenses: Option<seq<TravelExpense>>,
    invoices: Option<seq<Invoice>>,
    payments: Option<seq<Payment>>,
    fuelPrices: Option<FuelPrices>)

  /** The application's state: the list of projects and the project shown in the dashboard. */
  datatype AppState = AppState(projects: seq<Project>, selected: Option<Project>)
}
