# Construction job tracker: budget roll-up and edit handlers

This project models the logic of a browser dashboard for construction-job finances. A project records:

- an agreed price;
- team members with hourly rates, and the hours they log;
- change orders, materials, travel expenses, invoices and payments.

The dashboard derives budget metrics from these. Everything modelled is pure:

- **`calculateProjectMetrics`** (`Utils.ProjectMetrics`) folds a project's lists into eight totals. Labor is charged at the rate of the first team member with the entry's id; an entry whose member is gone costs nothing. Invoices are counted by status.
- **The edit handlers.** Each component's `handleAdd`, `handleUpdate` and `handleDelete` is a function from a project (plus the form's values) to the project handed to `onUpdate`:
  - the guard against empty fields;
  - append at the end;
  - replace the fields of records whose id matches;
  - filter out records whose id matches.

  The team-member delete also removes that member's hours. The project list does the same over the list of projects and the selection.
- **`App.updateProject`**: replace by id and set the selection.
- **The mileage cost formula** and the fuel-price settings. A cost is computed when an expense is entered and stored with it; saving new prices does not re-price stored expenses.
- **`String.prototype.trim`** of ECMAScript (section 22.1.3.32 of ECMA-262), which the forms apply to names and descriptions. It drops the WhiteSpace and LineTerminator code points of sections 12.2 and 12.3.

The page (`js/App.js:55-60`) mounts BudgetOverview, TeamMembers, HoursLogged, ChangeOrders, Materials and Payments only. The Invoices and TravelExpenses components are never rendered in this build, so their handlers cannot be reached from the page. They are modelled like the others. Moreover, once a project is selected the page mounts BudgetOverview first (`js/App.js:53-55`), and its read of `metrics.totalTravelExpenses.toFixed` (`js/components/BudgetOverview.js:54`) fails because `calculateProjectMetrics` returns no such field. So while that read fails, no handler of the dashboard components is reachable from the page; only the sidebar's project-list handlers are.

Modules:

| Module | Contents |
|---|---|
| `Wrappers` | `Option` |
| `Seqs` | generic `Sum`, `Filter`, `Find` and `Replace`: the `reduce`, `filter`, `find` and `map` of JavaScript arrays, with their lemmas |
| `Text` | `trim` |
| `Types` | the records |
| `Utils` | `js/utils.js` |
| one module per component | each component's handlers |
| `App` | `js/App.js` |

Modelling conventions:

- **Form fields.**
  - A numeric form field is an `Input(text, value)`. The handlers' guard (`!form.x`) tests whether the text is empty.
  - `value` is the number `parseFloat` or `Number` made of the text. It is a parameter.
  - Ids that `Date.now()` would give are parameters as well.
  - The user's answer to `confirm()` is a boolean parameter.
- **Money and quantities** are `real`.
- **Optional lists.** `invoices`, `payments`, `travelExpenses` and `fuelPrices` are `Option`s, because the code reads them with `|| []` and `|| { gas: 0, diesel: 0 }`.
- **Project ids.** A project's id is an `Option<Id>`, because `handleCreateProject` creates projects without one.

## Model

| member | source | states |
|---|---|---|
| Utils.ProjectMetrics | js/utils.js:4-45 | an absent project gives all eight totals 0; otherwise adjustedPrice = agreedPrice + change orders, remainingBudget = adjustedPrice − materials − labor, outstandingBalance = adjustedPrice − paid invoices |
| Utils.MemberWithId | js/utils.js:21 | what `find` returns is a member of the team with the id |
| Utils.MemberWithIdNone | js/utils.js:21-22 | the lookup fails exactly when no member has the id |
| Utils.MemberWithIdFirst | js/utils.js:21-22 | the lookup returns the member at the first index holding the id |
| Utils.MemberWithIdIndex | js/utils.js:21-22 | what the lookup returns sits at an index with the id, and no earlier index has it |
| Utils.EntryCostAtRate | js/utils.js:20-23 | each hours entry costs its hours times the rate of the first member with its id, 0 when there is none |
| Utils.OrphanEntryCostsNothing | js/utils.js:21-22 | an entry whose member is gone contributes 0 to the labor cost |
| Utils.TotalHours | js/utils.js:63-67 | `getTotalHours` is 0 for an absent project and when no entry names the member |
| Utils.TotalHoursAsSum | js/utils.js:63-67 | the filter-then-sum equals a fold that counts exactly the entries naming the member |
| Utils.HoursForAsFilter | js/utils.js:64-66 | that fold equals the sum over just the entries the filter keeps |
| Utils.TotalHoursAppend | js/utils.js:63-67 | an entry appended counts towards the member it names and no other |
| Utils.TeamMemberName | js/utils.js:57-60 | the name of the first member with the id; `'Unknown'` for an absent project or when no member has the id |
| Utils.LaborShift | js/utils.js:20-23 | changing one id's rate by c per hour moves the labor cost by c times that id's hours |
| Utils.HoursScaled | js/utils.js:20-23 | charging a member's hours at c costs c times those hours |
| Utils.LaborOnlyChange | js/utils.js:18-33 | a change to the team or hours alone moves labor by the change and the remaining budget by as much the other way; no other total moves |
| Utils.ChangeOrdersOnlyChange | js/utils.js:18-33 | a change to the change orders alone moves their total, the adjusted price, the remaining budget and the outstanding balance by the change; no other total moves |
| Utils.MaterialsOnlyChange | js/utils.js:18-33 | a change to the materials alone moves their total by the change and the remaining budget the other way; no other total moves |
| Utils.InvoicesOnlyChange | js/utils.js:18-33 | a change to the invoices alone moves the two invoice totals by the changes of their sums, and the outstanding balance follows the paid total |
| Utils.MetricsAsSums | js/utils.js:20-23 | the labor cost charges every entry's hours at the rate of its member id (the first member with it, 0 without one) |
| Utils.InvoiceTotalsAsSums | js/utils.js:24-29 | the paid total counts exactly the `'Paid'` invoices; the invoiced total counts every invoice that is not `'Cancelled'` |
| Utils.PaidWithinInvoiced | js/utils.js:24-29 | with non-negative amounts, the paid total never exceeds the invoiced total |
| Utils.AbsentInvoicesAreZero | js/utils.js:24-33 | without an invoice list both invoice totals are 0 and the outstanding balance is the adjusted price |
| Utils.MetricsReadOnly | js/utils.js:18-33 | the metrics depend only on the agreed price, team, hours, change orders, materials and invoices |
| Utils.LaborExample | js/utils.js:20-23 | one member at 50 an hour with 10 hours costs 500 |
| Utils.MaterialsExample | js/utils.js:19 | materials of 100 and 250.50 total 350.50 |
| Utils.InvoicesExample | js/utils.js:24-29 | 1000 paid, 500 pending and 200 cancelled give 1500 invoiced and 1000 paid |
| Utils.ChangeOrderExample | js/utils.js:18-31 | no change orders leave the agreed price; a −300 change order lowers it by 300 |
| TeamMembers.Add | js/components/TeamMembers.js:10-23 | rejected (project unchanged) when the name or rate is empty; otherwise exactly one member is appended, and every other list and field is unchanged |
| TeamMembers.Update | js/components/TeamMembers.js:29-39 | rejected like Add; otherwise members with the edited id get the new name, role and rate; ids, length, order, other members and the hours are unchanged |
| TeamMembers.Delete | js/components/TeamMembers.js:45-51 | afterwards no member has the id and no hours entry names it; only the team and hours change, so travel expenses naming the member stay |
| TeamMembers.DeleteKeepsRest | js/components/TeamMembers.js:48-49 | the cascade keeps exactly the members and entries with other ids, in order and with multiplicity |
| TeamMembers.GetHours | js/components/TeamMembers.js:54-58 | the fallback `getHours` equals `getTotalHours` |
| TeamMembers.LaborCostFor | js/components/TeamMembers.js:61-64 | `getLaborCost` is the member's hours times the rate, whichever helper supplies the hours |
| TeamMembers.LaborCostForAsSum | js/components/TeamMembers.js:61-64 | a member's labor cost is the rate times the fold of its hours |
| TeamMembers.MemberCostsAddUp | js/components/TeamMembers.js:156-158 | with unique member ids, the per-member labor costs listed add up to `totalLaborCost` |
| TeamMembers.MemberHoursAddUp | js/components/TeamMembers.js:156-158 | with unique ids, the sum over members of hours times rate is the labor cost |
| TeamMembers.DuplicateIdsCountTwice | js/components/TeamMembers.js:156-158 | without unique ids the per-member list counts an entry once per member sharing its id (40 listed against 20 charged) |
| TeamMembers.LastIsNew | js/components/TeamMembers.js:13-22 | in a team with unique ids, the members before the last are unique and none has the last one's id |
| TeamMembers.AppendedLabor | js/components/TeamMembers.js:20-23 | a member appended under an unused id charges that id's hours at its rate, on top of the previous cost |
| TeamMembers.EntryCostAppend | js/components/TeamMembers.js:20-23 | an appended member prices only the entries naming it, and only when no earlier member has its id |
| TeamMembers.AddEffectOnMetrics | js/components/TeamMembers.js:20-23 | adding a member moves only labor and the remaining budget, by the hours already logged under the id at the new rate, and only when no earlier member had the id |
| TeamMembers.AddFreshKeepsMetrics | js/components/TeamMembers.js:20-23 | adding a member under an id no entry names changes no metric |
| TeamMembers.MemberWithIdAfterUpdate | js/components/TeamMembers.js:34-38 | after an edit, the lookup by id finds the edited version of what it found before |
| TeamMembers.EntryCostAfterUpdate | js/components/TeamMembers.js:34-38 | an edit re-prices the edited id's entries by the change of rate, and no others |
| TeamMembers.UpdatedLabor | js/components/TeamMembers.js:32-39 | an edit moves the labor cost by the edited id's hours times the change of rate |
| TeamMembers.UpdateLabor | js/components/TeamMembers.js:32-39 | the same, for the project `handleUpdate` builds |
| TeamMembers.UpdateEffectOnMetrics | js/components/TeamMembers.js:32-39 | editing moves labor by hours times the change of rate, the remaining budget the other way, and nothing else |
| TeamMembers.EntryCostAfterDelete | js/components/TeamMembers.js:48 | removing the members with an id does not re-price entries naming another id |
| TeamMembers.KeptLabor | js/components/TeamMembers.js:48-49 | the entries the cascade keeps are priced as before |
| TeamMembers.DroppedLabor | js/components/TeamMembers.js:49 | the entries the cascade drops cost the removed id's hours at its rate |
| TeamMembers.EntriesOfOneMember | js/components/TeamMembers.js:49 | entries that all name one id cost their hours at that id's rate |
| TeamMembers.DeletedLabor | js/components/TeamMembers.js:48-49 | the cascade lowers the labor cost by exactly the removed id's hours at its rate |
| TeamMembers.DeleteLabor | js/components/TeamMembers.js:46-50 | the same, for the project `handleDelete` builds |
| TeamMembers.DeleteEffectOnMetrics | js/components/TeamMembers.js:45-51 | deleting a member takes its labor cost off the labor total and adds it back to the remaining budget; no other metric moves |
| HoursLogged.MemberName | js/components/HoursLogged.js:8-11 | `'Unknown'` without a project; any other name it gives is that of a team member with the id (it is `getTeamMemberName`) |
| HoursLogged.Add | js/components/HoursLogged.js:21-34 | rejected when no member is selected or the hours are empty; otherwise exactly one entry with the given id, member, date and hours is appended; only `hours` changes |
| HoursLogged.Update | js/components/HoursLogged.js:40-50 | rejected like Add; otherwise entries with the edited id get the member, date and hours; ids, length and order are kept; only `hours` changes |
| HoursLogged.Delete | js/components/HoursLogged.js:56-64 | unconfirmed: no change; confirmed: no entry with the id remains; only `hours` changes |
| HoursLogged.DeleteKeepsRest | js/components/HoursLogged.js:63 | a confirmed delete keeps exactly the other entries, in order |
| HoursLogged.DeleteAbsent | js/components/HoursLogged.js:56-64 | declining, or deleting an id no entry has, leaves the project as it was |
| HoursLogged.AddEffectOnMetrics | js/components/HoursLogged.js:31-34 | logging hours raises labor by the hours at the first matching member's rate (0 if none), lowers the remaining budget by as much, and moves nothing else |
| HoursLogged.AppendedEntryLabor | js/components/HoursLogged.js:33 | an appended entry adds its own cost to the labor cost |
| HoursLogged.AddEffectOnTotalHours | js/components/HoursLogged.js:31-34 | logging hours adds them to the named member's total and to no other |
| HoursLogged.UpdatedLabor | js/components/HoursLogged.js:45-49 | an edit moves the labor cost by the change of cost of each edited entry |
| HoursLogged.UpdateEffectOnMetrics | js/components/HoursLogged.js:43-50 | editing moves labor by the summed change of cost of the edited entries, the remaining budget the other way, and nothing else |
| HoursLogged.UpdateUnchanged | js/components/HoursLogged.js:43-50 | resubmitting an entry unchanged leaves the project as it was |
| HoursLogged.DeleteEffectOnMetrics | js/components/HoursLogged.js:61-64 | deleting entries takes their cost off labor and adds it back to the remaining budget; nothing else moves |
| Text.Trim | js/components/ChangeOrders.js:15 | the trimmed text is never longer than the input (its meaning is in the four lemmas below) |
| Text.TrimEdges | js/components/ChangeOrders.js:15 | what `trim` leaves is empty, or neither starts nor ends with white space |
| Text.TrimInfix | js/components/ChangeOrders.js:15 | the input is the trimmed text with only white space before and after it |
| Text.TrimEmpty | js/components/ChangeOrders.js:11 | the `!x.trim()` test of the change-order and material guards (`BlankAfterTrim`) holds exactly when the text is all white space |
| Text.TrimIdempotent | js/components/Materials.js:23 | trimming twice is trimming once |
| ChangeOrders.Add | js/components/ChangeOrders.js:10-22 | rejected as above; otherwise one change order with the trimmed, nonempty description and the price as given (any sign) is appended; only `changeOrders` changes |
| ChangeOrders.Update | js/components/ChangeOrders.js:28-38 | rejected like Add; otherwise matching ids get the trimmed description and price; ids, length, order and the others are kept |
| ChangeOrders.Delete | js/components/ChangeOrders.js:44-52 | unconfirmed: no change; confirmed: no change order with the id remains; only `changeOrders` changes |
| ChangeOrders.DeleteKeepsRest | js/components/ChangeOrders.js:51 | a confirmed delete keeps exactly the others, in order |
| ChangeOrders.AddEffectOnMetrics | js/components/ChangeOrders.js:19-22 | a change order of price c raises the change-order total, the adjusted price, the remaining budget and the outstanding balance by c, and moves nothing else |
| ChangeOrders.UpdateEffectOnMetrics | js/components/ChangeOrders.js:31-38 | editing moves those four totals by the summed new-minus-old price of the edited orders, and nothing else |
| ChangeOrders.DeleteEffectOnMetrics | js/components/ChangeOrders.js:49-52 | deleting takes the removed prices off those four totals, and nothing else |
| ChangeOrders.AddThenDelete | js/components/ChangeOrders.js:10-52 | adding under an unused id and then deleting that id gives the project back |
| Materials.QuantityOf | js/components/Materials.js:25 | `quantity.trim() \|\| 1` is 1 exactly when the text is all white space, and otherwise the nonempty trimmed text |
| Materials.Add | js/components/Materials.js:18-32 | rejected as above; otherwise one material with the trimmed name (nonempty), cost, defaulted quantity and date is appended; only `materials` changes |
| Materials.Update | js/components/Materials.js:38-48 | rejected like Add; otherwise matching ids get name, cost, quantity and date; ids, length, order and the others are kept |
| Materials.Delete | js/components/Materials.js:54-62 | unconfirmed: no change; confirmed: no material with the id remains; only `materials` changes |
| Materials.DeleteKeepsRest | js/components/Materials.js:61 | a confirmed delete keeps exactly the others, in order |
| Materials.AddEffectOnMetrics | js/components/Materials.js:29-32 | a material of cost c raises the materials total by c, lowers the remaining budget by c, and moves nothing else |
| Materials.UpdateEffectOnMetrics | js/components/Materials.js:41-48 | editing moves the materials total by the summed new-minus-old cost, and the remaining budget the other way |
| Materials.DeleteEffectOnMetrics | js/components/Materials.js:59-62 | deleting takes the removed cost off the materials total and gives it back to the remaining budget |
| TravelExpenses.PricePerGallon | js/components/TravelExpenses.js:34-35 | the gas or diesel price from the settings; 0 without settings or for any other fuel type |
| TravelExpenses.CalculateCost | js/components/TravelExpenses.js:33-38 | a fuel the settings do not price costs nothing (the formula is in CostFormula) |
| TravelExpenses.CostFormula | js/components/TravelExpenses.js:33-38 | cost × mpg = miles × price per gallon, i.e. cost = (miles / mpg) × price |
| TravelExpenses.UnpricedFuelIsFree | js/components/TravelExpenses.js:34-37 | without settings, or for an unpriced fuel type, the cost is 0 |
| TravelExpenses.CostExample | js/components/TravelExpenses.js:33-38 | 100 miles at 25 mpg: 16 with gas at 4, 20 with diesel at 5 |
| TravelExpenses.Add | js/components/TravelExpenses.js:46-68 | rejected when the member, miles, mpg or fuel type is empty; otherwise one expense, costed at the current prices, is appended to the list (an absent list starts empty); only `travelExpenses` changes |
| TravelExpenses.Update | js/components/TravelExpenses.js:81-96 | rejected like Add; otherwise the matching expense gets the fields and a cost recomputed at current prices; the others keep their stored cost; ids, length and order are kept |
| TravelExpenses.Delete | js/components/TravelExpenses.js:109-119 | unconfirmed: no change; confirmed: no expense with the id remains; only `travelExpenses` changes |
| TravelExpenses.DeleteKeepsRest | js/components/TravelExpenses.js:117 | a confirmed delete keeps exactly the others, in order |
| TravelExpenses.SaveSettings | js/components/TravelExpenses.js:179-186 | only the fuel prices change, to the two given; every stored expense (and cost) is unchanged |
| TravelExpenses.TotalTravelCost | js/components/TravelExpenses.js:122 | 0 when the list is absent |
| TravelExpenses.TotalMiles | js/components/TravelExpenses.js:123 | 0 when the list is absent |
| TravelExpenses.AppendedTotals | js/components/TravelExpenses.js:122-123 | an appended expense adds its miles and stored cost to the two totals |
| TravelExpenses.AddEffectOnTotals | js/components/TravelExpenses.js:64-68 | adding raises the totals by the miles and by the cost at the current prices |
| TravelExpenses.DeleteEffectOnTotals | js/components/TravelExpenses.js:114-123 | deleting takes the removed expenses' miles and stored costs off the totals |
| TravelExpenses.SaveSettingsKeepsTotals | js/components/TravelExpenses.js:180-186 | saving prices moves neither total |
| TravelExpenses.TravelKeepsMetrics | js/utils.js:18-33 | no travel handler and no settings change moves any budget metric |
| TravelExpenses.AddKeepsCostsCurrent | js/components/TravelExpenses.js:49-68 | if every stored cost matches the current prices, it still does after an add |
| TravelExpenses.UpdateKeepsCostsCurrent | js/components/TravelExpenses.js:84-96 | the same after an edit |
| TravelExpenses.EditedCostCurrent | js/components/TravelExpenses.js:88-96 | one expense after an edit: the edited one is priced at the unchanged prices, any other is the one that was current |
| TravelExpenses.DeleteKeepsCostsCurrent | js/components/TravelExpenses.js:114-118 | the same after a delete |
| TravelExpenses.SamePrices | js/components/TravelExpenses.js:33-38 | equal fuel prices give equal costs |
| TravelExpenses.SettingsDoNotReprice | js/components/TravelExpenses.js:180-186 | after gas goes from 4 to 5, a stored cost of 16 stays 16 while the formula now gives 20, so stored costs stop matching the prices |
| Invoices.StatusColor | js/components/Invoices.js:26-35 | the gray class exactly for `'Pending'` and for any status not offered |
| Invoices.StatusColorsDistinct | js/components/Invoices.js:26-35 | each of the five offered statuses has a distinct class |
| Invoices.Add | js/components/Invoices.js:37-52 | rejected when the amount is empty; otherwise one invoice with the status and trimmed description is appended to the list (an absent list starts empty); only `invoices` changes |
| Invoices.Update | js/components/Invoices.js:58-69 | rejected like Add; otherwise matching ids get amount, date, trimmed description and status; ids, length, order and the others are kept |
| Invoices.Delete | js/components/Invoices.js:75-85 | unconfirmed: no change; confirmed: no invoice with the id remains; only `invoices` changes |
| Invoices.DeleteKeepsRest | js/components/Invoices.js:83 | a confirmed delete keeps exactly the others, in order |
| Invoices.AddEffectOnMetrics | js/components/Invoices.js:48-52 | a new invoice of amount a adds a to the invoiced total unless it is cancelled, and to the paid total (off the outstanding balance) when it is paid; nothing else moves |
| Invoices.UpdateEffectOnMetrics | js/components/Invoices.js:61-69 | editing moves each invoice total by what the edited versions count minus what the old ones did; the outstanding balance follows the paid total |
| Invoices.DeleteEffectOnMetrics | js/components/Invoices.js:80-84 | deleting takes what the removed invoices counted off both totals and gives the paid part back to the outstanding balance |
| Invoices.DeleteCancelledKeepsMetrics | js/components/Invoices.js:80-84 | deleting a `'Cancelled'` invoice changes no metric |
| Payments.Add | js/components/Payments.js:17-31 | rejected when the amount is empty; otherwise one payment with the trimmed description is appended to the list (an absent list starts empty); only `payments` changes |
| Payments.Update | js/components/Payments.js:37-48 | rejected like Add; otherwise matching ids get amount, date and trimmed description; ids, length, order and the others are kept |
| Payments.Delete | js/components/Payments.js:54-63 | unconfirmed: no change; confirmed: no payment with the id remains; only `payments` changes |
| Payments.DeleteKeepsRest | js/components/Payments.js:62 | a confirmed delete keeps exactly the others, in order |
| Payments.PaymentsKeepMetrics | js/components/Payments.js:27-31 | no payment handler moves any budget metric |
| ProjectList.StatusColor | js/components/ProjectList.js:24-34 | the gray class exactly for `'Scheduling'` and for any status not offered |
| ProjectList.StatusColorsDistinct | js/components/ProjectList.js:24-34 | each of the six offered statuses has a distinct class |
| ProjectList.CreateProject | js/components/ProjectList.js:36-51 | rejected when the name or price is empty; otherwise one project is appended with the form's fields, empty team, hours, change orders, materials and payments, and no id; the selection stays |
| ProjectList.CreateProjectWithId | js/components/ProjectList.js:36-51 | the same creation, with the new project carrying the given id |
| ProjectList.NewProjectMetrics | js/components/ProjectList.js:39-49 | a new project's metrics are its agreed price as adjusted price, remaining budget and outstanding balance, and 0 elsewhere |
| ProjectList.UpdateProject | js/components/ProjectList.js:56-68 | rejected like the creation; otherwise projects whose id equals the edited one get the four fields and keep their lists, the others and the order stay; a selection with that id gets the same four fields, and any other selection stays |
| ProjectList.UpdateTouchesOnlyEdited | js/components/ProjectList.js:59-63 | when no other project shares the edited id, only that project changes |
| ProjectList.DeleteProject | js/components/ProjectList.js:73-79 | no project with the id remains; the selection is cleared exactly when its id matches |
| ProjectList.DeleteKeepsRest | js/components/ProjectList.js:74 | the delete keeps exactly the projects with other ids, in order |
| App.UpdateProject | js/App.js:26-29 | every project with the updated project's id is replaced by it; length, order and the others stay; the selection becomes the updated project |
| App.UpdateNoMatch | js/App.js:27 | when no project has the id the list is unchanged |
| App.UpdateIdempotent | js/App.js:26-29 | applying the same update twice is applying it once |
| App.UpdateReplacesOne | js/App.js:27 | with distinct ids, an update replaces exactly the one project with its id |
| App.IdlessUpdateOverwrites | js/App.js:27 | two projects created from the list both lack an id, so an edit of the first overwrites the second |
| App.WithIdsUpdateKeepsOthers | js/App.js:27 | with ids given at creation, the same steps keep the second project |
| App.IdlessDeleteRemovesBoth | js/components/ProjectList.js:74 | two projects created from the list both lack an id, so deleting the first removes both |
| App.WithIdsDeleteKeepsOthers | js/components/ProjectList.js:74 | with ids given at creation, deleting the first keeps exactly the second |
| App.CreateWithIdKeepsDistinct | js/components/ProjectList.js:39-51 | creating with a fresh id keeps project ids distinct |
| App.IdlessEditSelects | js/components/ProjectList.js:66-67 | editing an id-less project while none is selected selects a project |
| App.EditWithIdKeepsNoSelection | js/components/ProjectList.js:66-67 | editing a project that has an id never selects one where none was selected |

## Left out

- React rendering and component state (`useState`, `useEffect`, `setForm`, `setShowForm`, `setEditing`). These are presentation. The handlers are functions of the project and the form's values, and the edited record's id is a parameter.
- `confirm()` dialogs are browser I/O. The user's answer is the `confirmed` parameter.
- The `localStorage` load and save in `js/App.js:11-23` are I/O.
- Ids from `Date.now()`, and the numbers `parseFloat` and `Number` make of form text, are parameters: they are library calls. Nothing makes the ids unique.
- IEEE-754 floating point: money is `real`, with no rounding, NaN or Infinity. `toFixed`, `toLocaleString` and `formatCurrency` (`js/utils.js:47-54`) are display formatting and are not modelled.
- A zero mileage: the mileage guard tests the text, so `"0"` passes it and JavaScript would store Infinity or NaN. The model requires a nonzero mileage on every travel handler that computes a cost.
- `js/components/BudgetOverview.js` and `js/components/Icon.js` only display values.
- The aggregator reads `teamMembers`, `hours`, `changeOrders` and `materials` without a default, so it would throw if they were absent. They are required lists here.
- TravelExpenses' `getMemberName` (`js/components/TravelExpenses.js:41-44`) is the same lookup as `HoursLogged.MemberName`. It has no member of its own.
- `getTodayISODate` and the components' `getTodayDate` read the clock. The date is a string parameter.
- Editing with no selection spreads `null`, which in JavaScript gives an object holding only the four edited fields. The model gives that project empty lists and no optional lists.
- TravelExpenses.CalculateCost: its own contract states only that an unpriced fuel costs nothing. The formula itself is in `TravelExpenses.CostFormula`, stated without division as cost × mpg = miles × price.
- Text.Trim: its own contract states only that the result is no longer than the input. What it means is in `Text.TrimInfix`, `Text.TrimEdges`, `Text.TrimEmpty` and `Text.TrimIdempotent`.
- `BudgetOverview` displays `metrics.totalTravelExpenses` and `metrics.totalPayments` (`js/components/BudgetOverview.js:54`, `62`), but `calculateProjectMetrics` never returns them (`js/utils.js:35-44`), so reading `.toFixed` and `.toLocaleString` of them would fail. The model's metrics are the eight fields the code returns.
- `parseFloat` of malformed text gives NaN, which the handlers store as it is. The model has no NaN: the parsed value is a parameter.
- Invoices.StatusColor, ProjectList.StatusColor and TravelExpenses.PricePerGallon: treat every key that is not one of the listed statuses or fuel types as unknown. `colors[status]` and `fuelPrices[fuelType]` are JavaScript property lookups, so a stored key naming an `Object.prototype` property (`toString`, `constructor`, `__proto__`) finds that property instead: the status colour is then a function and the cost NaN. The select boxes never produce such keys, but data loaded from `localStorage` can.
- TeamMembers.MemberCostsAddUp needs only unique member ids. Entries whose member is gone count on neither side, so the assumption that every entry's member exists is not needed.

## Findings

| source | as written | input that shows it | evidently intended | confidence | as-written member | corrected member |
|---|---|---|---|---|---|---|
| js/components/ProjectList.js:39-51 | `handleCreateProject` gives the new project no `id`. Every id match then holds between any two created projects, because `undefined === undefined`: the delete filter `p.id !== project.id` (line 74), the edit map (lines 59-63) and `updateProject` (`js/App.js:27`). | Create projects A and B from the list, then press A's delete button: both go. | Every created project carries an id, as every other record the tracker creates does, so that a delete or an edit touches one project. | not executed | App.IdlessDeleteRemovesBoth | App.WithIdsDeleteKeepsOthers |
| js/components/ProjectList.js:66-67 | `selectedProject?.id === editingProject.id` is `undefined === undefined` when nothing is selected and the edited project has no id, so `onSelectProject` receives `{ ...null, ...fields }`. | Create project A, select nothing, edit A: a project made of the four edited fields becomes the selection. | An edit changes the selection only when the edited project is the one selected. | not executed | App.IdlessEditSelects | App.EditWithIdKeepsNoSelection |
