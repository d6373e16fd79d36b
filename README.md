# ORVANN ledger — a Dafny model

ORVANN is the bookkeeping system of a small clothing shop owned by three
partners (JP, KATHE and ANDRES). This project models and proves its core.

- **The ledger operations.** They work on a SQLite database of products,
  sales, customer credits, expenses, the daily cash drawer, supplier orders
  and fixed costs. In the model the database is one value, `Schema.Db`, with
  a sequence per table and the next id of every autoincrement table.
- **The reports.** The day, week and month sales reports, the break-even
  point, and the partners' settlement of who owes whom.
- **The display helpers and the pure parts of the administration page.**
  The stock and break-even colours, the peso formatter, the automatic SKU,
  and the balance and cash-close messages.
- **The one-off migration of the shop's spreadsheet into the database.**
  The cleaning rules for partner names, payment methods, product names and
  dates, and the per-row rules of the inventory, sales, expenses and order
  sheets.

## Modules

- `Common`: `Option` and `Result`.
- `Strings`: `strip`, `upper` and `lower`, `split`, `startswith`, `in`,
  `replace`, `rsplit` and decimal digits, on `seq<char>`.
- `Tables`: the SQL shapes over a table held as a sequence. `WHERE` is
  `Where`, `UPDATE` is `Update`, `SUM` is `Sum`, `GROUP BY` is `GroupSum`,
  and first-row lookup is `First`. Around them are the lemmas that add
  sums up across filters, groups and appends.
- `Schema` and `Database`: the rows of the seven tables. `Database.Valid` is
  the database invariant:
  - primary keys are unique, and every id is below its sequence;
  - every sale's sku and every credit's sale exist;
  - the stored sale and order totals follow their formulas.

  `Database.Outcome` is an operation's result: it either raises an error or
  returns a value with the new database.
- `Catalog`, `Sales`, `Cash`, `Credits`, `Expenses`, `Orders`: the
  operations in `app/models.py`, as functions from the database to the new
  database or an error.
- `Reports` and `Settlement`: the read-only reports. Where the source sums
  in a Python loop, there is also a method with that loop, proved equal to
  the function.
- `Ledger`: a `Store` class holding the tables as fields. Its methods run
  each state-changing operation the way the source's statements do:
  - a check first, then the writes;
  - staged writes committed at the end for the transactional sale;
  - a loop per partner in the expense splits, and a loop per item when an
    order arrives.
  Each method's new state is the corresponding function of its old state.
- `Helpers` and `Admin`: the display helpers and the administration page's
  pure logic.
- `Excel`, `Cleaning`, `Migration`: spreadsheet cells and rows, the
  cleaning functions, and the four migration loops.
  - Each loop is a method over the sheet's rows.
  - Each is proved equal to a function of the rows.
  - The rules each imported row obeys are proved about those functions.

Amounts the source keeps as whole pesos are `int`. Amounts it computes with
Python floats (sale totals after a discount, credit payments, averages and
shares) are `real`. Dates are `Schema.Date` values, ordered as their
`YYYY-MM-DD` strings are. Today's date and the current time are parameters.

The source raises `ValueError` for a missing row or a refused operation.
That is an `Outcome` whose `Raised` case carries the error
(`NotFound`, `InsufficientStock`, `CreditNeedsClient`, `AlreadyPaid`,
`InvalidAmount`, `WrongState`, `HasSales`). The primary key's refusal of a
repeated sku is `DuplicateKey`.

## Model

| member | source | states |
|---|---|---|
| Schema.NextMonthStart | app/models.py:121-128 | The end of a month report is the first day of the next month; December rolls over to January of the next year. |
| Schema.SaleTotal | app/models.py:34 | A sale's total is price × quantity less the discount percentage. With no discount it is price × quantity, with 100 % it is zero, and it always lies between zero and price × quantity. |
| Schema.OrderPaymentDescription | app/models.py:791 | The expense recorded for an order payment is `Pedido #`, the id's digits, ` — `, the supplier, `: ` and the description, each at its own place; a missing description is written `None`. |
| Schema.OrderPaymentDescriptionId | app/models.py:791 | The digits after `Pedido #` read back as the order's id. |
| Catalog.AgregarStock | app/models.py:555-556 | Adding stock changes only the stock of the rows with that sku. |
| Catalog.UpdateProductsFind | app/models.py:555-556 | After an `UPDATE ... WHERE sku = ?` that keeps skus, every sku finds the row it found before, changed exactly when it is the updated sku. |
| Catalog.AgregarStockUnknownSku | app/models.py:555-556 | Adding stock to an unknown sku is no error and changes nothing. |
| Catalog.AgregarStockOf | app/models.py:555-556 | Adding stock to a known sku raises its stock by exactly the amount and leaves every other sku's stock alone. |
| Catalog.DescontarStockOf | app/models.py:52-56 | A sale's decrement lowers its sku's stock by exactly the quantity and leaves other skus alone. |
| Catalog.DescontarAgregarStock | app/models.py:85-88 | Giving back the quantity a sale took restores the products table exactly. |
| Catalog.StockChangesValid | app/models.py:555-556 | Stock changes keep the database invariant. |
| Catalog.CrearProducto | app/models.py:668-675 | A product is created only when its sku is new: an existing sku raises and leaves the database unchanged; otherwise the row is appended with the given fields. |
| Catalog.CrearProductoValid | app/models.py:668-675 | Creating a product keeps the invariant, and the new product is found under its sku. |
| Catalog.EditarProducto | app/models.py:678-695 | Editing a product with no field given returns at once; otherwise only the rows with that sku change. |
| Catalog.EditarProductoFind | app/models.py:678-695 | After an edit the sku finds its old row with exactly the given fields changed and the others kept; every other sku finds the same row as before. |
| Catalog.EditarProductoValid | app/models.py:678-695 | Editing a product keeps the invariant: the sku, which every reference uses, never changes. |
| Catalog.EliminarProducto | app/models.py:698-703 | Deleting a product is refused exactly when some sale references its sku; otherwise exactly the rows with that sku disappear. |
| Catalog.EliminarProductoValid | app/models.py:698-703 | Deleting a product never leaves a sale pointing at a missing product. |
| Catalog.AlertasStock | app/models.py:532-536 | The stock alerts are exactly the products at or below their minimum stock. |
| Catalog.ResumenInventario | app/models.py:539-552 | The total is the summary of every product. Its categories are exactly those some product has, NULL among them, and each category's entry is the summary of that category's products. |
| Catalog.Summarize | app/models.py:540-544 | `COUNT(*)` is the number of rows. Over no rows the three `SUM`s are NULL; otherwise they are the sums of stock, cost × stock and price × stock. |
| Catalog.ResumenCategoriasSuman | app/models.py:539-552 | Over a non-empty inventory, the per-category unit counts add up to the total unit count. |
| Catalog.CrearCostoFijo | app/models.py:712-716 | A new fixed cost gets the next id and is active unless told otherwise. |
| Catalog.EditarCostoFijo | app/models.py:719-738 | Editing a fixed cost with nothing given changes nothing. Otherwise only that id's row changes: its id stays, each given field takes its new value and every other field is kept. |
| Catalog.EliminarCostoFijo | app/models.py:741-742 | Deleting a fixed cost removes exactly the rows with that id. |
| Catalog.CrearCostoFijoValid | app/models.py:712-716 | Creating a fixed cost keeps the invariant. |
| Catalog.EditarCostoFijoValid | app/models.py:719-738 | Editing a fixed cost keeps the invariant. |
| Catalog.EliminarCostoFijoValid | app/models.py:741-742 | Deleting a fixed cost keeps the invariant. |
| Sales.NewSale | app/models.py:36-50 | The inserted sale carries the id, sku, quantity and date of the call, and satisfies the stored-total formula. |
| Sales.NewCredit | app/models.py:58-68 | A credit sale's receivable points at its sale, is for the sale's whole total, and starts unpaid with nothing paid. |
| Sales.RecordSale | app/models.py:36-56 | Recording a sale appends the row under the next id and decrements the sku's stock, and changes nothing else. |
| Sales.OpenCredit | app/models.py:62-68 | Opening a credit appends one receivable under the next credit id, and changes nothing else. |
| Sales.RegistrarVenta | app/models.py:11-73 | A sale is refused exactly when the sku is missing, the stock is short, or a credit sale has no customer, raising `NotFound`, `InsufficientStock` and `CreditNeedsClient` respectively. A refusal leaves the database as it was, since the transaction is not committed. A successful sale returns the new sale's id. |
| Sales.RegistrarVentaTables | app/models.py:11-73 | A recorded sale writes exactly the new sale row, the stock decrement and, for a credit sale, one receivable for its total; nothing else changes. |
| Sales.RegistrarVentaStock | app/models.py:52-56 | A recorded sale lowers its sku's stock by the quantity sold and no other stock. |
| Sales.RecordSaleValid | app/models.py:36-56 | The sale row and stock decrement keep the invariant, and the sale is then on record. |
| Sales.RegistrarVentaValid | app/models.py:11-73 | Recording a sale keeps the invariant. |
| Sales.AnularVenta | app/models.py:76-91 | Voiding a sale raises exactly when the id is unknown. Otherwise its quantity goes back to stock, exactly its credits and the sale are deleted, and the voided row is returned. |
| Sales.AnularVentaValid | app/models.py:76-91 | Voiding a sale keeps the invariant. |
| Sales.AnularRecordSaleRow | app/models.py:76-91 | Voiding the sale just recorded finds exactly the inserted row. |
| Sales.AnularRecordSaleRows | app/models.py:85-88 | Deleting the rows of the sale just recorded leaves exactly the old sales and credits. |
| Sales.AnularRegistrarVenta | app/models.py:76-91 | Voiding a sale right after recording it restores the products, sales and credits tables exactly and returns the sale that was recorded. |
| Sales.ApplySaleChanges | app/models.py:447-457 | Editing a sale never changes its id, sku, quantity or discount. |
| Sales.EditarVenta | app/models.py:428-461 | Editing a sale with nothing given changes nothing. It only touches the sales table, keeps the count, ids and skus, and leaves every other sale as it was. |
| Sales.EditarVentaTotal | app/models.py:447-457 | A new price re-derives the total from the stored quantity and discount; without a new price, price and total stay. Method, seller and notes take the given value or are kept, and date and sku never change. |
| Sales.EditarVentaValid | app/models.py:428-461 | Editing a sale keeps the invariant. |
| Cash.AbrirCaja | app/models.py:332-348 | Opening the drawer touches only the drawer table; the row it leaves for the day and for every other day is stated by `Cash.AbrirCajaRow`. |
| Cash.EstadoCaja | app/models.py:351-387 | The drawer state carries the day's start, closed flag and counted cash from its row, or zeros for a day never opened. It also holds the day's totals per payment method and the expected cash: start plus cash sales minus cash expenses. |
| Cash.EstadoCajaSums | app/models.py:360-375 | Each method's total is the sum of that day's sales paid that way. The cash sales and the cash expenses are the sums of the day's cash rows, zero when there are none. |
| Cash.EstadoCajaSameFigures | app/models.py:351-387 | The expected cash depends only on the sales, the expenses and the day's row. |
| Cash.CerrarCaja | app/models.py:390-413 | The close's difference is counted cash minus expected cash, and only the drawer table changes; the stored row, notes included, and the other days are stated by `Cash.CerrarCajaRow`. |
| Cash.ReabrirCaja | app/models.py:416-425 | Reopening touches only the drawer table and keeps its row count; the cleared row and the other days are stated by `Cash.ReabrirCajaRow`. |
| Cash.AbrirCajaEstado | app/models.py:332-348 | Opening sets the day's start to the amount given, overwriting rather than adding; the closed flag and the counted amount stay. |
| Cash.CerrarCajaEstado | app/models.py:390-413 | After closing, the day is on record, closed with the counted amount, with the same start and the same expected cash. |
| Cash.ReabrirCajaEstado | app/models.py:416-425 | Reopening clears the close and keeps the start, the expected cash and whether the day is on record. |
| Cash.AbrirCajaValid | app/models.py:332-348 | Opening the drawer keeps the invariant. |
| Cash.CerrarCajaValid | app/models.py:390-413 | Closing the drawer keeps the invariant. |
| Cash.ReabrirCajaValid | app/models.py:416-425 | Reopening the drawer keeps the invariant. |
| Cash.AbrirCajaRow | app/models.py:332-348 | Opening gives the day the row on record with the new start, or a new open row with that start; every other day finds the same row as before. |
| Cash.CerrarCajaRow | app/models.py:390-413 | Closing gives the day its row closed with the counted amount and the notes, or a new closed row starting at zero; every other day finds the same row as before. |
| Cash.ReabrirCajaRow | app/models.py:416-425 | Reopening gives a day on record its row with the close cleared and the start kept, and a day not on record stays absent; every other day finds the same row as before. |
| Cash.EstadoCajaSameDay | app/models.py:351-387 | Two databases with the same sales, expenses and day row report the same drawer state. |
| Cash.CerrarReabrirCajaRow | app/models.py:390-425 | Closing then reopening a day gives back its open row, except for the notes, which reopening clears. |
| Cash.CerrarReabrirCaja | app/models.py:390-425 | Closing then reopening a day reports it exactly as it was while open and not yet counted. |
| Credits.CreditosPendientes | app/models.py:466-474 | The pending list holds exactly the unpaid credits, each joined with its sale and product when those exist. |
| Credits.RegistrarPagoCredito | app/models.py:477-488 | Paying a credit off changes only the credits table, and every other id finds the same credit as before. |
| Credits.RegistrarPagoCreditoRow | app/models.py:477-488 | A paid-off credit is marked paid on that day with its whole amount as paid; an unknown id changes nothing. |
| Credits.RegistrarPagoCreditoValid | app/models.py:477-488 | Paying a credit off keeps the invariant. |
| Credits.Abonar | app/models.py:508-519 | The row change of a payment: when it covers what is left the row is marked paid today for exactly its amount, otherwise only the amount paid becomes the old amount plus the payment; the id never changes. |
| Credits.RegistrarAbono | app/models.py:491-527 | A payment on account raises exactly when the credit is missing (`NotFound`), already paid (`AlreadyPaid`) or the payment is not positive (`InvalidAmount`). Otherwise the returned total paid and remaining balance add up to the amount owed, the balance is never negative, the payment completes the credit exactly when it reaches the amount, only the credits table changes, and every other id finds the same credit as before. |
| Credits.AbonoCompleta | app/models.py:508-514 | A payment that covers what is left completes the credit: the returned total paid is its amount, and the stored row is marked paid today with that amount as paid, everything else unchanged. |
| Credits.AbonoParcial | app/models.py:515-519 | A payment that leaves something owed does not complete the credit: the returned total paid is the old amount paid plus the payment, and the stored row records that total as paid, everything else unchanged. |
| Credits.RegistrarAbonoValid | app/models.py:491-527 | A payment on account keeps the invariant. |
| Credits.AbonosAcumulan | app/models.py:491-527 | Two partial payments in a row leave as paid what was paid before plus both payments, capped at the amount owed. |
| Expenses.NewExpense | app/models.py:561-568 | An expense row carries the call's fields and its payer's share. |
| Expenses.RegistrarGasto | app/models.py:561-568 | Recording an expense appends one row under the next id, returns that id, and changes nothing else. |
| Expenses.RegistrarGastos | app/models.py:571-594 | One row per payment is written, in order, under consecutive ids, and those ids are returned in the same order. |
| Expenses.RoundThird | app/models.py:574 | `round(total / 3)` is the integer nearest to a third of the total. |
| Expenses.ParejoSplit | app/models.py:571-582 | The even split writes one row per partner in the order JP, KATHE, ANDRES. The first two pay the rounded third, ANDRES pays it plus the remainder, and the three add up to the total exactly. |
| Expenses.RegistrarGastoParejoRows | app/models.py:571-582 | The even split's rows are the partners' shares under the next three ids, and they sum to the total. |
| Expenses.RegistrarGastoPersonalizado | app/models.py:585-594 | The custom split writes one row per entry with a positive amount, in order. |
| Expenses.RegistrarGastoPersonalizadoRows | app/models.py:585-594 | Every row the custom split writes is an entry with a positive amount, and every such entry gets a row. |
| Expenses.RegistrarGastoValid | app/models.py:561-568 | Recording one expense keeps the invariant. |
| Expenses.RegistrarGastosValid | app/models.py:571-594 | Recording a sequence of expenses keeps the invariant. |
| Expenses.EditarGasto | app/models.py:597-625 | Editing an expense with nothing given changes nothing; otherwise only that id's rows change, with the given fields set and the rest kept. |
| Expenses.EliminarGasto | app/models.py:628-630 | Deleting an expense removes exactly the rows with that id. |
| Expenses.EditarGastoValid | app/models.py:597-625 | Editing an expense keeps the invariant. |
| Expenses.EliminarGastoValid | app/models.py:628-630 | Deleting an expense keeps the invariant. |
| Expenses.GastosMes | app/models.py:633-647 | The month's expenses are the rows from the 1st up to, not including, the 1st of the next month, with their total and their sums per category. |
| Expenses.GastosMesCategorias | app/models.py:633-647 | Each category's figure is the sum of the month's rows in it, and the categories together add up to the month's total. |
| Expenses.GastosRango | app/models.py:650-654 | The range query keeps exactly the rows dated between the two days, both included. |
| Settlement.AddExpense | app/models.py:294-307 | One turn of the settlement loop adds a partner's payment to that partner's contribution and categories, and adds every payment to the total and to its category. |
| Settlement.TallyOfTotal | app/models.py:294-307 | The loop's total is the sum of every expense. |
| Settlement.TallyOfAportes | app/models.py:294-307 | A partner's contribution is the sum of the expenses that partner paid. |
| Settlement.TallyOfCategorias | app/models.py:294-307 | The loop's grouping by category equals `GROUP BY categoria` with `SUM(monto)`. |
| Settlement.TallyOfSocioCategorias | app/models.py:294-307 | A partner's grouping by category is `GROUP BY categoria` over that partner's expenses. |
| Settlement.TallyOfPartners | app/models.py:294-307 | The partners' contributions plus the payments by anyone else add up to the total. |
| Settlement.CalcularLiquidacion | app/models.py:282-327 | Each partner's share is a third of a positive total, and zero otherwise. Each balance is contribution minus share. |
| Settlement.LiquidacionSums | app/models.py:282-327 | The settlement's total counts every expense, payers outside the partners included. Each contribution counts only that partner's expenses, and the categories partition the total. |
| Settlement.SaldosCancel | app/models.py:309-317 | When every payer is a partner and the total is not negative, the three balances sum to zero. |
| Settlement.LiquidacionLoop | app/models.py:294-307 | The settlement loop, run over the expenses, produces exactly the contributions, total and groupings of the specification. |
| Orders.PedidosPendientes | app/models.py:752-754 | The pending list holds exactly the orders not `Completo`, paid ones included. |
| Orders.TotalDeuda | app/models.py:757-760 | The supplier debt is the sum of the totals of the `Pendiente` orders, zero when there are none. |
| Orders.NewOrder | app/models.py:763-771 | A new order's total is units × unit cost, and it starts `Pendiente`. |
| Orders.RegistrarPedido | app/models.py:763-771 | Registering an order appends one row under the next id, returns that id, and changes nothing else. |
| Orders.OrderExpenseInfo | app/models.py:790-799 | The expense for an order payment is in the merchandise category, is not an investment, and is described by the order. |
| Orders.PagarPedido | app/models.py:774-806 | Paying an order raises `NotFound` when it is missing and `WrongState` when it is not `Pendiente`, and succeeds for every `Pendiente` order. Then it records the order's total as one expense by the payer, marks the order `Pagado` with that payer, and returns the order as read. |
| Orders.AgregarStocks | app/models.py:822-824 | A delivery adds each pair's quantity to its sku's stock, one pair after another; no other table changes. |
| Orders.RecibirMercancia | app/models.py:809-828 | Receiving goods raises `NotFound` when the order is missing and `WrongState` when it is still `Pendiente`, and succeeds for every other order, a `Completo` one included. Then the delivered units go to stock and the order becomes `Completo`. |
| Orders.NewTotal | app/models.py:840-850 | When units or unit cost are edited, the total is recomputed from the new value of each, with the stored value standing in for the one not given. |
| Orders.EditarPedido | app/models.py:831-855 | Editing an order with nothing given changes nothing; otherwise only that id's rows change. |
| Orders.EliminarPedido | app/models.py:858-860 | Deleting an order removes exactly the rows with that id. |
| Orders.UpdateOrdersValid | app/models.py:831-855 | A change of one id's orders that keeps ids and consistent totals keeps the invariant. |
| Orders.RegistrarPedidoValid | app/models.py:763-771 | Registering an order keeps the invariant. |
| Orders.RegistrarPedidoDeuda | app/models.py:757-771 | A new order raises the supplier debt by exactly its total, and it is listed as pending. |
| Orders.PagarPedidoRows | app/models.py:774-806 | Paying an order writes one merchandise expense for its total by the payer and marks it `Pagado` with that payer. Every other id finds the same order as before, and only the orders, the expenses and the expense sequence change. |
| Orders.PagarPedidoDeuda | app/models.py:774-806 | Paying an order takes exactly its total off the supplier debt. |
| Orders.PagarPedidoTwice | app/models.py:783-785 | An order cannot be paid twice: the second payment is refused and records nothing. |
| Orders.PagarPedidoValid | app/models.py:774-806 | Paying an order keeps the invariant. |
| Orders.AgregarStocksOf | app/models.py:822-824 | A delivery raises each known sku's stock by the sum of its quantities in the delivery. An unknown sku stays unknown, and no product appears or disappears. |
| Orders.AgregarStocksValid | app/models.py:822-824 | A delivery keeps the invariant. |
| Orders.RecibirMercanciaRows | app/models.py:809-828 | Receiving an order adds the delivered units to stock and marks it `Completo`, so it leaves the pending list. Every other id finds the same order as before. The debt, the expenses and the sales stay as they were. |
| Orders.RecibirMercanciaValid | app/models.py:809-828 | Receiving an order keeps the invariant. |
| Orders.OrderLifecycle | app/models.py:763-828 | A new order cannot be received before it is paid; once paid it can be, and it ends `Completo`. |
| Orders.EditarPedidoRow | app/models.py:831-855 | Editing an order sets each of supplier, description, units, unit cost, state and notes to the value given or keeps it. It keeps the id, order date, expected delivery date and payer, and keeps the total equal to units × unit cost. |
| Orders.EditarPedidoValid | app/models.py:831-855 | Editing an order keeps the invariant. |
| Orders.EliminarPedidoValid | app/models.py:858-860 | Deleting an order keeps the invariant. |
| Reports.Join | app/models.py:96-104 | The `LEFT JOIN` keeps every sale, row for row and in order, attaching its product's name and cost when the product exists. |
| Reports.SumarPorMetodo | app/models.py:108-111 | The day report's loop computes exactly the per-method totals and the general total of the specification. |
| Reports.VentasDia | app/models.py:94-118 | The day report holds the day's sales with product names, the totals per payment method, the general total and the units. |
| Reports.VentasDiaSums | app/models.py:94-118 | A method is listed exactly when some sale of the day used it, and its total is the sum of those sales. |
| Reports.VentasDiaTotal | app/models.py:108-111 | The per-method totals add up to the general total. |
| Reports.VentasDiaCaja | app/models.py:94-118 | The day report and the cash drawer see the same total per method. |
| Reports.VentasMes | app/models.py:121-157 | The month report takes the sales from the 1st up to, not including, the 1st of the next month. It gives their revenue, their cost at current product cost, the profit and the units. |
| Reports.VentasMesTop | app/models.py:140-155 | The report's two lists are the ten labels with the most units and the ten with the most revenue (all labels when fewer). Each entry carries its label's counter value, the list is in descending order, no label appears twice, and no omitted label beats a listed one. |
| Reports.UnitsTop | app/models.py:154 | `most_common(10)` over the units counter's entries, in first-appearance order, meets the top-ten property. |
| Reports.RevenueTop | app/models.py:155 | The same for the revenue counter. |
| Tables.FirstKeys | app/models.py:144-148 | A counter's keys in first-appearance order: each row's key exactly once. |
| Tables.MostCommon | app/models.py:154-155 | `most_common(n)`: min(n, size) entries taken from the input, in descending order of score, with no entry left out that scores above one taken. |
| Tables.FirstMax | app/models.py:154-155 | The entry taken next is one with the highest score, and the first such in the input, so ties keep the input order. |
| Tables.TopEntries | app/models.py:154-155 | Over a map's entries, `most_common(n)` keeps min(n, keys) entries, each with its map value and no key twice, and every key left out scores no more than any entry kept. |
| Reports.VentasMesSums | app/models.py:121-157 | The month's figures are sums over its sales, and the units and revenue counters give each label the sum over that label's sales. |
| Reports.VentasMesUnidades | app/models.py:140-152 | The units counter's values add up to the month's units. |
| Reports.VentasRango | app/models.py:160-168 | The range report keeps exactly the sales dated between the two days, both included. |
| Reports.MonthIsRange | app/models.py:121-168 | For proper dates the month, half-open at the next month's 1st, is the closed range from the 1st to the 31st. |
| Reports.VentasSemana | app/models.py:171-189 | The week report covers Monday to today, with revenue, units, cost and profit. |
| Reports.SemanaAnterior | app/models.py:192-203 | The previous week's figures cover last Monday to last Sunday, both included. |
| Reports.DiariasMes | app/models.py:206-220 | The daily series lists each day of the month that has sales, with its revenue and units. |
| Reports.DiariasMesDia | app/models.py:206-220 | Each day of the series reports what that day's report reports. |
| Reports.DiariasMesTotal | app/models.py:206-220 | The days of the series add up to the month's revenue and units. |
| Reports.BreakEvenProducts | app/models.py:230-240 | The break-even averages are taken over exactly the priced products in stock when there is one, and over exactly the priced products otherwise. The list is empty exactly when no product has a price. |
| Reports.Ponderar | app/models.py:242-247 | The weighting loop computes exactly the stock-weighted margin, total weight and stock-weighted price. |
| Reports.DivOr | app/models.py:249-263 | The guarded division gives the fallback exactly when the divisor is not positive. |
| Reports.BreakEvenFigures | app/models.py:249-264 | The break-even revenue covers the fixed costs at the average margin, and is zero when the margin is not positive. The units are that revenue at the average ticket, or zero when the ticket is not positive, and the daily figure is a thirtieth of the units. With no stock weight the averages fall back to one half and 100000. The days left are the larger of one and 30 minus the day, and the units missing the larger of zero and the break-even units less those sold. |
| Reports.PuntoEquilibrio | app/models.py:225-277 | The break-even point uses the active fixed costs and the month's revenue and units. The average margin and ticket are the products' stock-weighted margin and price sums divided by their total weight, or one half and 100000 when there is no weight. |
| Reports.PuntoEquilibrioSinProductos | app/models.py:249-263 | With no priced product the averages fall back to one half and 100000, so the break-even revenue is twice the fixed costs. |
| Reports.PuntoEquilibrioTicket | app/models.py:249-263 | The average ticket is at least one peso. |
| Reports.PuntoEquilibrioMargen | app/models.py:249-263 | When every priced product costs between zero and its price, the average margin lies between zero and one. |
| Ledger.Store.constructor | app/models.py:11-860 | A store opened on a database holds exactly that database. |
| Ledger.Store.Commit | app/models.py:70 | A commit makes every table take its staged value. |
| Ledger.Store.AgregarStock | app/models.py:555-556 | The store's new state is `Catalog.AgregarStock` of its old state. |
| Ledger.Store.RegistrarVenta | app/models.py:11-73 | The staged transaction ends in `Sales.RegistrarVenta`'s outcome: a refusal leaves the store unchanged, and a sale commits its new sale, stock and credit. |
| Ledger.Store.AnularVenta | app/models.py:76-91 | Three statements in turn reach `Sales.AnularVenta`'s outcome. |
| Ledger.Store.AbrirCaja | app/models.py:332-348 | The lookup followed by an update or an insert is `Cash.AbrirCaja`. |
| Ledger.Store.CerrarCaja | app/models.py:390-413 | The state and result are `Cash.CerrarCaja`'s. |
| Ledger.Store.ReabrirCaja | app/models.py:416-425 | The new state is `Cash.ReabrirCaja`'s. |
| Ledger.Store.RegistrarPagoCredito | app/models.py:477-488 | The new state is `Credits.RegistrarPagoCredito`'s. |
| Ledger.Store.RegistrarAbono | app/models.py:491-527 | The checks and the update of one of the two kinds reach `Credits.RegistrarAbono`'s outcome. |
| Ledger.Store.RegistrarGasto | app/models.py:561-568 | The insert and its returned id are `Expenses.RegistrarGasto`'s. |
| Ledger.Store.RegistrarGastoParejo | app/models.py:571-582 | The loop over the partners writes exactly `Expenses.RegistrarGastoParejo`'s rows and ids. |
| Ledger.Store.RegistrarGastoPersonalizado | app/models.py:585-594 | The loop over the entries writes exactly `Expenses.RegistrarGastoPersonalizado`'s rows and ids. |
| Ledger.Store.PagarPedido | app/models.py:774-806 | The check, the expense and the status update reach `Orders.PagarPedido`'s outcome. |
| Ledger.Store.RecibirMercancia | app/models.py:809-828 | The check, the stock loop and the status update reach `Orders.RecibirMercancia`'s outcome. |
| Helpers.ColorStock | app/components/helpers.py:63-69 | The stock colour is red exactly when out of stock, yellow exactly up to the minimum, and green exactly above it. |
| Helpers.ColorStockBands | app/components/helpers.py:63-69 | The indicator is always one of the three colours, and yellow with the default minimum means one to three units. |
| Helpers.ColorPe | app/components/helpers.py:72-78 | The break-even bar is green from 100 %, orange from 50 % and red below, each in both directions. |
| Helpers.ColorPeMonotone | app/components/helpers.py:72-78 | As progress grows the bar never goes back from green, and never reaches red from orange. |
| Helpers.FmtCop | app/components/helpers.py:47-53 | `None` shows as `$0`, a non-negative amount as `$` and grouped digits, and a negative one with a leading `-`. |
| Helpers.GroupedDigits | app/components/helpers.py:52-53 | Removing the `.` separators gives back the amount's decimal digits, with one separator per full group of three digits after the first. |
| Helpers.FmtCopDigits | app/components/helpers.py:47-53 | The formatted amount reads back as the amount once `$` and the separators are removed. |
| Helpers.FmtCopNegative | app/components/helpers.py:51-52 | A negative amount is written as its opposite with a leading minus. |
| Helpers.MetodosPago | app/components/helpers.py:99 | The forms offer exactly the four payment methods the ledger knows, without repetition. |
| Helpers.Vendedores | app/components/helpers.py:100 | The sellers offered are exactly the three partners. |
| Admin.CatPrefixCovers | app/pages/admin.py:28-31 | Every product category the form offers has a SKU prefix. |
| Admin.CatPrefixShape | app/pages/admin.py:28-31 | Each prefix is three upper-case letters. |
| Admin.CatPrefixInjective | app/pages/admin.py:28-31 | No two categories share a prefix. |
| Admin.CatCode | app/pages/admin.py:489 | The category part is the table prefix for a known category, and otherwise the first three letters of the category (all of it when shorter), upper-cased. |
| Admin.ColorCode | app/pages/admin.py:490 | The colour part is `XXX` when there is no colour or it is empty. Otherwise it is the first three characters of the stripped, upper-cased colour, all of it when shorter. |
| Admin.TallaCode | app/pages/admin.py:491 | The size part is the size stripped and upper-cased. |
| Admin.GenerarSku | app/pages/admin.py:487-492 | The automatic SKU is the category part, a dash, the colour part, a dash and the size part, each at its own place. |
| Admin.Dashed | app/pages/admin.py:492 | `f"{a}-{b}-{c}"` places its three parts and its two dashes at fixed positions. |
| Admin.GenerarSkuPrefix | app/pages/admin.py:487-492 | The SKU starts with the category part and a dash. |
| Admin.GenerarSkuTalla | app/pages/admin.py:487-492 | For a size without a dash, the text after the SKU's last dash is the size part, as `rsplit('-', 1)` reads it back. |
| Admin.FinalSku | app/pages/admin.py:529 | A non-blank override is that override stripped and upper-cased; a blank one leaves the automatic SKU. |
| Admin.FinalSkuIdempotent | app/pages/admin.py:529 | Applying the override rule to its own result changes nothing. |
| Admin.FinalSkuKeepsAuto | app/pages/admin.py:526-529 | Leaving the pre-filled automatic SKU in the override field keeps it unchanged, for a known category and a non-blank size. |
| Admin.ClasificarSaldo | app/pages/admin.py:226-233 | A positive balance is owed to the partner, a negative one is owed by them, and zero is settled; the amount shown is the balance's magnitude. |
| Admin.SaldosOpuestos | app/pages/admin.py:226-233 | When every expense was paid by a partner, some partner is owed money exactly when some partner owes money. |
| Admin.ClasificarCierre | app/pages/admin.py:385-391 | A difference under one peso either way is balanced; otherwise it is a surplus or a shortfall of its magnitude. |
| Admin.CierreFaltante | app/pages/admin.py:384-391 | Closing reports a shortfall exactly when the counted cash is at least one peso below expected, and the shortfall is that gap; likewise for a surplus. |
| Excel.Get | scripts/migrate_excel.py:92-93 | A missing column reads as the default, and a present cell reads as itself. |
| Excel.PadRoundTrip | scripts/migrate_excel.py:78 | A zero-padded date field has exactly its width and reads back as the number. |
| Excel.IsoDateFields | scripts/migrate_excel.py:78 | A date is written in the fixed `YYYY-MM-DD` shape, with its fields at their places. |
| Excel.IsoDateRoundTrip | scripts/migrate_excel.py:78 | Writing a date and reading it back gives the date. |
| Excel.Str | scripts/migrate_excel.py:97 | `str` of an empty cell is `None`, of text is the text, and of a number is its digits. |
| Excel.NumOrZero | scripts/migrate_excel.py:99-101 | `float(x or 0)` reads an empty or zero cell as 0 and any other number as its value. |
| Excel.ToDateStr | scripts/migrate_excel.py:73-81 | An empty cell has no date, a date cell gives `YYYY-MM-DD`, and text passes through. |
| Cleaning.FixSocio | scripts/migrate_excel.py:22-26 | An empty or missing name passes through. Any other name is stripped, and `MILE` becomes `ANDRES`. |
| Cleaning.FixSocioIdempotent | scripts/migrate_excel.py:22-26 | The old name never survives, and renaming twice is renaming once. |
| Cleaning.FixSocioPartners | scripts/migrate_excel.py:22-26 | A current partner's name comes out as that partner. |
| Cleaning.NormalizarMetodo | scripts/migrate_excel.py:153-160 | The rules apply in order: `cr` in any case gives credit; otherwise `transf` gives transfer, then `dat` card, then `efect` cash; any other text is kept. |
| Cleaning.NormalizarMetodoIdempotent | scripts/migrate_excel.py:153-160 | The ledger's four names come through unchanged, so normalising twice is normalising once. |
| Cleaning.CorregirFecha | scripts/migrate_excel.py:309-310 | A date starting `2025-02` gets the year 2026; any other date, or none, is kept. |
| Cleaning.CorregirFechaSpec | scripts/migrate_excel.py:309-310 | The fix keeps the length and everything after the year, and no fixed date starts with `2025-02`. |
| Cleaning.CategoriaDe | scripts/migrate_excel.py:39-55 | The category comes from the first prefix in table order that the name starts with, and is absent exactly when no prefix matches. |
| Cleaning.FirstTalla | scripts/migrate_excel.py:57-63 | The size is read at the first token that names a size, and no earlier token names one. |
| Cleaning.ParseProducto | scripts/migrate_excel.py:29-70 | An empty name gives nothing. Otherwise the category comes from the lower-cased name's prefix, and the size is present exactly when some token names one. A colour is read only when a size is. |
| Cleaning.ParseProductoTalla | scripts/migrate_excel.py:57-63 | The size is the first size token upper-cased. |
| Cleaning.TallaEn | scripts/migrate_excel.py:59-61 | A size is read exactly when a size position was found, and it is a known size when that position holds a size token. |
| Cleaning.ParseProductoColor | scripts/migrate_excel.py:65-66 | The colour is exactly the tokens after the size: splitting it again gives those tokens back. |
| Cleaning.ParseProductoSinColor | scripts/migrate_excel.py:65-68 | There is no colour when the size is the last token or there is no size. |
| Cleaning.ParsearProducto | scripts/migrate_excel.py:29-70 | The token loop that stops at the first size gives exactly `ParseProducto`'s result. |
| Cleaning.ColorDe | scripts/migrate_excel.py:65-68 | The colour step reads the tokens after the size, stripped, only when there are any, and drops an empty result: exactly the colour `Cleaning.ParseProducto` gives for that size position. |
| Cleaning.BaseSku | scripts/migrate_excel.py:110 | The base is a prefix of the SKU, and it equals the SKU exactly when the SKU has no dash. |
| Cleaning.RenombrarSku | scripts/migrate_excel.py:107-114 | A new SKU, or one whose name gives no size, is kept. A repeated one with a size is renamed to its base plus the size when that is free, else to the SKU plus the size; it always changes. |
| Cleaning.RenombrarSkuSwapsSize | scripts/migrate_excel.py:110-111 | For a SKU `base-part` with a dash-free part, the rename swaps the last part for the size. |
| Cleaning.RenombrarSkuCollides | scripts/migrate_excel.py:112-113 | The fallback name is not checked against the SKUs seen, so a third `SUD-NEG-L` of size `L` is renamed onto `SUD-NEG-L-L` again. |
| Migration.Leading | scripts/migrate_excel.py:91-95 | The loops read exactly the rows before the first one whose column `A` is empty. |
| Migration.NumCol | scripts/migrate_excel.py:99-101 | A numeric column reads an empty or missing cell as zero. |
| Migration.TextCol | scripts/migrate_excel.py:97-98 | A text column is the stripped `str` of the cell, or of the default when the column is missing. |
| Migration.OptTextCol | scripts/migrate_excel.py:211-215 | An optional text column is absent for an empty cell, and the stripped text otherwise. |
| Migration.Table | scripts/migrate_excel.py:118-122 | `INSERT OR REPLACE` keys the products table by SKU. |
| Migration.TableKeys | scripts/migrate_excel.py:118-122 | The table's SKUs are exactly the SKUs inserted, and each entry is one of the inserts. |
| Migration.Renamed | scripts/migrate_excel.py:106-116 | The inserts follow the rows one for one, each renamed against the SKUs inserted before it. |
| Migration.RenamedKeepsFields | scripts/migrate_excel.py:106-122 | Renaming changes only the SKU: every insert is its row's product under some SKU. |
| Migration.ElegirSku | scripts/migrate_excel.py:107-114 | The loop's SKU choice is `Cleaning.RenombrarSku` against the SKUs seen. |
| Migration.InsertarProducto | scripts/migrate_excel.py:106-129 | One inventory row is inserted under its chosen SKU: the table, the SKUs seen and the units read are those of the renamed inserts with that row added. |
| Migration.MigrarProductos | scripts/migrate_excel.py:84-129 | The inventory loop reads the leading rows, builds exactly the table of the renamed inserts, and returns the rows read and the units read. |
| Migration.TableSize | scripts/migrate_excel.py:106-122 | The table never has more products than rows read. |
| Migration.TableLastWins | scripts/migrate_excel.py:118-122 | Each SKU's entry is its last insert. |
| Migration.DistinctSkusKept | scripts/migrate_excel.py:106-116 | When the sheet's SKUs are all different nothing is renamed, and the table has one product per row. |
| Migration.RepeatedSkuRenamed | scripts/migrate_excel.py:106-116 | A repeated SKU whose name gives a size never overwrites the product already stored under it. |
| Migration.ClienteDe | scripts/migrate_excel.py:150-151 | The customer is filled exactly when the cell is filled and not blank once stripped. |
| Migration.Creditos | scripts/migrate_excel.py:170-178 | There are never more credits than sales. |
| Migration.AbrirCredito | scripts/migrate_excel.py:173-178 | One credit is opened for a credit sale with a customer, and none otherwise. |
| Migration.MigrarVentas | scripts/migrate_excel.py:132-182 | The sales loop reads the leading rows; the `k`-th sale is the row's sale under id `primerId + k`. The credits are exactly those of the credit sales, and both counts are returned. |
| Migration.VentaUnidad | scripts/migrate_excel.py:163-168 | Every migrated sale is one unit at the sheet's price, without discount, with total equal to the price. |
| Migration.CreditosDeVentas | scripts/migrate_excel.py:170-178 | Every credit belongs to a credit sale with a customer, under that sale's id, and every such sale has one. |
| Migration.CreditoDeVenta | scripts/migrate_excel.py:170-178 | Sale `k` gets a credit under id `primerId + k` exactly when it is a credit sale with a customer, and that credit is the one it opens. |
| Migration.TieneCredito | scripts/migrate_excel.py:150-178 | Sale `k` has a credit exactly when its normalised method is credit and its customer is not blank. The credit is for the sale's price, on its date, with nothing paid. |
| Migration.CreditoPorMetodo | scripts/migrate_excel.py:153-154 | A method mentioning `cr` with a customer filled in opens a credit. |
| Migration.NotasGasto | scripts/migrate_excel.py:215-217 | Expense notes are never the text `None` or empty. |
| Migration.MigrarGastos | scripts/migrate_excel.py:185-239 | The expenses loop visits every row, skipping those without an expense, and keeps the others in order. Each payer's running total is the grouped sum of their amounts. |
| Migration.GastoOmitido | scripts/migrate_excel.py:199-208 | A row is skipped exactly when it has no date, no amount, or a zero amount. |
| Migration.GastoReglas | scripts/migrate_excel.py:199-223 | An imported expense keeps the sheet's non-zero amount and is paid by a partner. It is an investment exactly when dated before the opening day. |
| Migration.PagadorSocio | scripts/migrate_excel.py:214-223 | The payer is always a partner. |
| Migration.PagadorNombreReglas | scripts/migrate_excel.py:214-223 | A partner's name is kept, blanks aside. The old name `MILE` becomes `ANDRES`, and anything else becomes `JP`. |
| Migration.PagadorReglas | scripts/migrate_excel.py:214-223 | An empty responsible cell gives `JP`; otherwise the name rule applies to the stripped name. |
| Migration.GastosReglas | scripts/migrate_excel.py:197-229 | Every expense the migration keeps obeys the row rules. |
| Migration.TotalesPorSocio | scripts/migrate_excel.py:232 | Each payer's total is the sum of that payer's amounts, and only partners have totals. |
| Migration.MigrarPedidos | scripts/migrate_excel.py:280-321 | The orders loop reads the leading rows and inserts each row's order, in order. |
| Migration.PedidoFecha | scripts/migrate_excel.py:306-310 | No order date keeps the `2025-02` typo; such a date gets the year 2026 and keeps the rest, and any other date is kept as written. |
| Migration.EstadoPedido | scripts/migrate_excel.py:297 | The status defaults to `Pendiente` only when the column is missing. An empty cell reads as the text `None`, and a written status is kept, stripped. |
| Migration.PedidoTotal | scripts/migrate_excel.py:296 | The migrated total is the sheet's total cell, whatever the units and unit cost say. |
| Migration.ReplaceMile | scripts/migrate_excel.py:303-304 | Replacing `MILE` by `ANDRES` leaves no `MILE` behind. |
| Migration.NotasPedidoReglas | scripts/migrate_excel.py:299-304 | Order notes are absent for an empty cell or the text `None`, and the notes kept contain no `MILE`. |

## Left out

- Storage and I/O are not modelled: SQLite connections, cursors, `execute`, `ORDER BY` and the Streamlit pages.
  - Queries are filters over the table sequences in insertion order.
  - Listings are compared as sets or sums wherever the source sorts them.
- The CHECK constraints and defaults of the table definitions are not modelled beyond what `Database.Valid` states; the schema script is not part of this model.
- Today's date, the current time and the day of the month are parameters, so the clock is not modelled. The week's Monday and last week's days are parameters too.
- Floating point is not modelled. Amounts the source computes with floats are exact `real`s, and amounts it stores as whole pesos are `int`.
- Helpers.FmtCop: covers integer amounts only. `,.0f` rounding of fractional pesos is not modelled.
- `fmt_pct`, `render_table` and the expense category list of the helpers are display code without logic worth a contract.
- The migration is modelled on values:
  - a sheet is a sequence of rows, keyed by column letter;
  - openpyxl, `run_migration`, `migrate_costos_fijos` and the printed summaries are left out;
  - each sheet's inserts are the loop's returned sequence or table, and the auto-increment id of a sale is `primerId` plus its position.
- Migration.MigrarProductos: `float` on a cell that does not hold a number raises `ValueError`; `InventoryRow` excludes such rows as a precondition instead of modelling the abort. The same holds for `SaleRow`, `ExpenseRow` and `OrderRow`.
- Excel.NumValue: text read by `float` is modelled for whole numbers written in decimal digits only; signs, decimals and exponents in text cells are not modelled.
- Migration.NumCol: number cells are whole numbers, so `int(float(x))` truncation of fractions is not modelled.
- Excel.Str: `str` of a date cell is written as the date at midnight; `str` of a time of day other than midnight is not modelled.
- Upper- and lower-casing cover the ASCII letters only; Python's Unicode case mapping of accented letters is not modelled.
- Concurrency and rollback on a Python exception are left out beyond what each operation's own statement order gives. The one transactional operation, `registrar_venta`, stages its writes and commits last.
- The source's default database path arguments are not modelled.
- Reports.VentasMes: among labels with equal counts the lists keep the model's sale order (table order), not the source's `ORDER BY fecha DESC, hora DESC`.
