/** The command words of the line protocol. */
module Commands {

  datatype Verb =
    | Help | List | AddProduct | AddStock | BuyStock | UpdatePrice
    | Analytics | LowStock | DailyReport | RemoveProduct | Exit
}

/**
 * The values that cross the boundary between the inventory store, the
 * command dispatcher and the client: a product's state, the daily report
 * and every response the server can give.
 */
module Types {
  import opened Java
  import Commands

  /**
   * The state of one `Product` at an instant: its immutable id and its
   * current name, quantity and price. Prices are whole cents.
   */
  datatype Item = Item(id: int, name: string, quantity: Int32, price: int)

  /** `Product.getTotalValue`: quantity times price, in cents. */
  function Value(it: Item): (r: int)
    ensures it.quantity >= 0 && it.price >= 0 ==> r >= 0
  {
    it.quantity * it.price
  }

  /** One "Product Breakdown" line of the daily report. */
  datatype ReportLine = ReportLine(name: string, quantity: Int32, price: int, value: int)

  /** The daily report, without its timestamp. */
  datatype Report = Report(
    generatedBy: string,
    productTypes: nat,
    totalUnits: Int32,
    totalValue: int,
    breakdown: seq<ReportLine>)

  /** Every response line (or block) the server sends for one command. */
  datatype Response =
    // from the inventory store
    | ProductAdded(item: Item)
    | StockAdded(added: Int32, name: string, newQuantity: Int32)
    | Purchased(quantity: Int32, name: string, totalCost: int, remaining: Int32)
    | PriceUpdated(name: string, oldPrice: int, newPrice: int)
    | ProductRemoved(name: string)
    | NotFound(id: int)
    | InsufficientStock(available: Int32, requested: Int32)
    | InventoryValue(total: int)
    | LowStockItems(threshold: Int32, items: seq<Item>)
    | NoLowStockItems(threshold: Int32)
    | InventoryList(items: seq<Item>, count: nat)
    | NoProducts
    // from the command dispatcher
    | EmptyCommand
    | AdminOnly(verb: Commands.Verb)
    | Usage(verb: Commands.Verb)
    | UnknownCommand
    | InvalidNumberFormat
    | HelpText(lines: seq<string>)
    | DailyReportText(report: Report)
    | ReportInterrupted
    | Disconnecting

  /** The responses whose text starts with "ERROR:". */
  predicate IsError(r: Response) {
    r.NotFound? || r.InsufficientStock? || r.EmptyCommand? || r.AdminOnly? || r.Usage?
    || r.UnknownCommand? || r.InvalidNumberFormat? || r.ReportInterrupted?
  }

  /** The responses whose text starts with "SUCCESS:". */
  predicate IsSuccess(r: Response) {
    r.ProductAdded? || r.StockAdded? || r.Purchased? || r.PriceUpdated? || r.ProductRemoved?
  }
}
