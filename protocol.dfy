/**
 * The command dispatcher in front of the inventory store: how one trimmed
 * line of client text becomes either a fixed reply, a call into the store,
 * the daily report or the end of the session, and the session state the
 * handshake sets up. Everything here is a pure function; the class
 * `Handler.ClientHandler` holds the same state in fields.
 */
module Protocol {
  import opened Java
  import opened Wrappers
  import opened Types
  import opened Commands
  import Catalog

  // ------------------------------------------------------------ verbs

  /** The upper-case spelling of each verb, as the `switch` labels write it. */
  function VerbName(v: Verb): (r: string)
    ensures r != [] && IsUpperCase(r)
  {
    match v
    case Help => "HELP"
    case List => "LIST"
    case AddProduct => "ADD_PRODUCT"
    case AddStock => "ADD_STOCK"
    case BuyStock => "BUY_STOCK"
    case UpdatePrice => "UPDATE_PRICE"
    case Analytics => "ANALYTICS"
    case LowStock => "LOW_STOCK"
    case DailyReport => "DAILY_REPORT"
    case RemoveProduct => "REMOVE_PRODUCT"
    case Exit => "EXIT"
  }

  /** Every verb is spelled with printable ASCII characters, so a client can type it as a word. */
  lemma VerbNameIsAsciiWord(v: Verb)
    ensures IsWord(VerbName(v)) && IsAscii(VerbName(v))
  {
    var w := VerbName(v);
    forall i | 0 <= i < |w| ensures ' ' < w[i] && w[i] as int < 0x80 {
      assert 'A' <= w[i] <= 'Z' || w[i] == '_';
    }
  }

  /** The `switch` on the upper-cased first word: the verb with exactly this spelling, if any. */
  function VerbOf(action: string): (r: Option<Verb>)
    ensures r.Some? ==> VerbName(r.value) == action
    ensures r.None? ==> forall v :: VerbName(v) != action
  {
    if action == "HELP" then Some(Help)
    else if action == "LIST" then Some(List)
    else if action == "ADD_PRODUCT" then Some(AddProduct)
    else if action == "ADD_STOCK" then Some(AddStock)
    else if action == "BUY_STOCK" then Some(BuyStock)
    else if action == "UPDATE_PRICE" then Some(UpdatePrice)
    else if action == "ANALYTICS" then Some(Analytics)
    else if action == "LOW_STOCK" then Some(LowStock)
    else if action == "DAILY_REPORT" then Some(DailyReport)
    else if action == "REMOVE_PRODUCT" then Some(RemoveProduct)
    else if action == "EXIT" then Some(Exit)
    else None
  }

  /** The verbs that a session without the admin role is refused. */
  predicate AdminVerb(v: Verb) {
    v == AddProduct || v == AddStock || v == UpdatePrice || v == RemoveProduct
  }

  /** The number of words (the verb included) below which a verb answers with its usage line. */
  function MinParts(v: Verb): nat {
    match v
    case AddProduct => 4
    case AddStock => 3
    case BuyStock => 3
    case UpdatePrice => 3
    case RemoveProduct => 2
    case _ => 1
  }

  /** The threshold `LOW_STOCK` uses when the client gives none. */
  const DefaultThreshold: Int32 := 20

  /** The store calls only an admin may cause. */
  predicate AdminRequest(req: Catalog.Request) {
    req.Add? || req.Restock? || req.Reprice? || req.Remove?
  }

  /** The positions of the words the verb reads with `Integer.parseInt`, as its usage line lists them. */
  function IntArgs(v: Verb): seq<nat> {
    match v
    case AddProduct => [2]
    case AddStock => [1, 2]
    case BuyStock => [1, 2]
    case UpdatePrice => [1]
    case LowStock => [1]
    case RemoveProduct => [1]
    case _ => []
  }

  /** The positions of the words the verb reads as a price. */
  function PriceArgs(v: Verb): seq<nat> {
    match v
    case AddProduct => [3]
    case UpdatePrice => [2]
    case _ => []
  }

  /** Every number word the command holds for its verb parses (the optional threshold only when given). */
  predicate NumbersParse(v: Verb, parts: seq<string>, parsePrice: string -> Option<int>) {
    && (forall k :: k in IntArgs(v) && k < |parts| ==> ParseInt(parts[k]).Some?)
    && (forall k :: k in PriceArgs(v) && k < |parts| ==> parsePrice(parts[k]).Some?)
  }

  /** The verb whose command makes the dispatcher issue the request. */
  function RequestVerb(req: Catalog.Request): (v: Verb)
    ensures AdminVerb(v) <==> AdminRequest(req)
  {
    match req
    case ListAll => List
    case Add(_, _, _) => AddProduct
    case Restock(_, _) => AddStock
    case Buy(_, _) => BuyStock
    case Reprice(_, _) => UpdatePrice
    case Total => Analytics
    case LowStockBelow(_) => LowStock
    case Remove(_) => RemoveProduct
  }

  /** The words of a command carry the request's arguments: the name as typed, and the numbers the words parse to. */
  predicate Carries(parts: seq<string>, req: Catalog.Request, parsePrice: string -> Option<int>)
    requires |parts| >= MinParts(RequestVerb(req))
  {
    match req
    case ListAll => true
    case Add(name, q, p) => parts[1] == name && ParseInt(parts[2]) == Some(q) && parsePrice(parts[3]) == Some(p)
    case Restock(id, q) => ParseInt(parts[1]) == Some(id) && ParseInt(parts[2]) == Some(q)
    case Buy(id, q) => ParseInt(parts[1]) == Some(id) && ParseInt(parts[2]) == Some(q)
    case Reprice(id, p) => ParseInt(parts[1]) == Some(id) && parsePrice(parts[2]) == Some(p)
    case Total => true
    case LowStockBelow(t) => if |parts| == 1 then t == DefaultThreshold else ParseInt(parts[1]) == Some(t)
    case Remove(id) => ParseInt(parts[1]) == Some(id)
  }

  /** The words a client types for the request, `priceText` being how it writes the price. */
  function RequestWords(req: Catalog.Request, priceText: string): (r: seq<string>)
    ensures |r| >= MinParts(RequestVerb(req)) && |r| >= 1 && r[0] == VerbName(RequestVerb(req))
  {
    match req
    case ListAll => [VerbName(List)]
    case Add(name, q, _) => [VerbName(AddProduct), name, DecimalString(q), priceText]
    case Restock(id, q) => [VerbName(AddStock), DecimalString(id), DecimalString(q)]
    case Buy(id, q) => [VerbName(BuyStock), DecimalString(id), DecimalString(q)]
    case Reprice(id, _) => [VerbName(UpdatePrice), DecimalString(id), priceText]
    case Total => [VerbName(Analytics)]
    case LowStockBelow(t) => [VerbName(LowStock), DecimalString(t)]
    case Remove(id) => [VerbName(RemoveProduct), DecimalString(id)]
  }

  // ------------------------------------------------------------ dispatch

  /** What one command amounts to, before the store or the session is touched. */
  datatype Action =
    | Reply(response: Response)
    | Invoke(request: Catalog.Request)
    | MakeReport
    | Quit

  /**
   * `processCommand` after the split: the verb is the upper-cased first word;
   * the role check of an admin verb comes before its argument count, and the
   * argument count before any number is parsed; a word that does not parse is
   * "Invalid number format". Words past the last argument are ignored.
   * `parsePrice` stands for `Double.parseDouble` followed by the conversion to cents.
   */
  function Dispatch(parts: seq<string>, isAdmin: bool, parsePrice: string -> Option<int>): (r: Action)
    requires |parts| >= 1
    ensures VerbOf(Upper(parts[0])).None? ==> r == Reply(UnknownCommand)
    ensures VerbOf(Upper(parts[0])).Some? ==>
      var v := VerbOf(Upper(parts[0])).value;
      && (AdminVerb(v) && !isAdmin ==> r == Reply(AdminOnly(v)))
      && ((isAdmin || !AdminVerb(v)) && |parts| < MinParts(v) ==> r == Reply(Usage(v)))
      && (v == LowStock && |parts| == 1 ==> r == Invoke(Catalog.LowStockBelow(DefaultThreshold)))
    ensures r.Reply? && r.response.Usage? ==> |parts| < MinParts(r.response.verb)
    ensures r.Invoke? && AdminRequest(r.request) ==> isAdmin
    ensures r.Reply? ==> (IsError(r.response) || r.response.HelpText?) && r.response != EmptyCommand
  {
    match VerbOf(Upper(parts[0]))
    case None => Reply(UnknownCommand)
    case Some(v) =>
      if AdminVerb(v) && !isAdmin then Reply(AdminOnly(v))
      else if |parts| < MinParts(v) then Reply(Usage(v))
      else
        match v
        case Help => Reply(HelpText(HelpMessage(isAdmin)))
        case List => Invoke(Catalog.ListAll)
        case AddProduct =>
          (match (ParseInt(parts[2]), parsePrice(parts[3]))
           case (Some(q), Some(p)) => Invoke(Catalog.Add(parts[1], q, p))
           case _ => Reply(InvalidNumberFormat))
        case AddStock =>
          (match (ParseInt(parts[1]), ParseInt(parts[2]))
           case (Some(id), Some(q)) => Invoke(Catalog.Restock(id, q))
           case _ => Reply(InvalidNumberFormat))
        case BuyStock =>
          (match (ParseInt(parts[1]), ParseInt(parts[2]))
           case (Some(id), Some(q)) => Invoke(Catalog.Buy(id, q))
           case _ => Reply(InvalidNumberFormat))
        case UpdatePrice =>
          (match (ParseInt(parts[1]), parsePrice(parts[2]))
           case (Some(id), Some(p)) => Invoke(Catalog.Reprice(id, p))
           case _ => Reply(InvalidNumberFormat))
        case Analytics => Invoke(Catalog.Total)
        case LowStock =>
          if |parts| == 1 then Invoke(Catalog.LowStockBelow(DefaultThreshold))
          else
            (match ParseInt(parts[1])
             case Some(t) => Invoke(Catalog.LowStockBelow(t))
             case None => Reply(InvalidNumberFormat))
        case DailyReport => MakeReport
        case RemoveProduct =>
          (match ParseInt(parts[1])
           case Some(id) => Invoke(Catalog.Remove(id))
           case None => Reply(InvalidNumberFormat))
        case Exit => Quit
  }

  /**
   * The command loop trims each line and `processCommand` splits it on runs
   * of whitespace; an empty line is "Empty command".
   */
  function ParseCommand(line: string, isAdmin: bool, parsePrice: string -> Option<int>): (r: Action)
    ensures r == Reply(EmptyCommand) <==> forall i :: 0 <= i < |line| ==> IsTrimmable(line[i])
    ensures r.Invoke? && AdminRequest(r.request) ==> isAdmin
    ensures r.Reply? ==> IsError(r.response) || r.response.HelpText?
  {
    var command := Trim(line);
    if command == [] then Reply(EmptyCommand)
    else
      var parts := Tokens(command);
      Dispatch(parts, isAdmin, parsePrice)
  }

  // ------------------------------------------------------------ help

  const CommandsHeader := "=== AVAILABLE COMMANDS ==="
  const AdminHeader := "=== ADMIN COMMANDS ==="

  /** The lines every session is shown, each starting with the verb it describes. */
  function UserHelp(): seq<string> {
    [ VerbName(List) + " - List all products",
      VerbName(BuyStock) + " <productId> <quantity> - Purchase stock",
      VerbName(Analytics) + " - Show total inventory value (uses parallel processing)",
      VerbName(LowStock) + " [threshold] - Find low stock items (default threshold: 20)",
      VerbName(DailyReport) + " - Generate comprehensive daily report" ]
  }

  /** The lines only an admin session is shown. */
  function AdminHelp(): seq<string> {
    [ VerbName(AddProduct) + " <name> <quantity> <price> - Add new product",
      VerbName(AddStock) + " <productId> <quantity> - Add stock to existing product",
      VerbName(UpdatePrice) + " <productId> <newPrice> - Update product price",
      VerbName(RemoveProduct) + " <productId> - Remove a product" ]
  }

  const ExitHelp := VerbName(Exit) + " - Disconnect from server"

  /** `getHelpMessage`, one string per line ("" for a blank line). */
  function HelpMessage(isAdmin: bool): (r: seq<string>)
    ensures AdminHeader in r <==> isAdmin
    ensures |r| == if isAdmin then 15 else 9
    ensures r[..7] == ["", CommandsHeader] + UserHelp()
    ensures r[|r| - 2..] == ["", ExitHelp]
  {
    var admin := if isAdmin then ["", AdminHeader] + AdminHelp() else [];
    ["", CommandsHeader] + UserHelp() + admin + ["", ExitHelp]
  }

  /** Some line of the text starts with this word. */
  predicate Mentions(lines: seq<string>, word: string) {
    exists i :: 0 <= i < |lines| && word <= lines[i]
  }

  // ------------------------------------------------------------ report

  /** The "Product Breakdown" lines, one per product in list order. */
  function Breakdown(items: seq<Item>): (r: seq<ReportLine>)
    ensures |r| == |items|
    ensures forall i :: 0 <= i < |items| ==>
      r[i] == ReportLine(items[i].name, items[i].quantity, items[i].price, Value(items[i]))
  {
    seq(|items|, i requires 0 <= i < |items| =>
      ReportLine(items[i].name, items[i].quantity, items[i].price, Value(items[i])))
  }

  /** The sum of the values of the breakdown lines. */
  function LinesValue(lines: seq<ReportLine>): int {
    if lines == [] then 0 else lines[0].value + LinesValue(lines[1..])
  }

  /**
   * What `ReportCalculator.run` computes from a snapshot of the list: the
   * number of products, the `int` sum of the quantities (which wraps like
   * `IntStream.sum`), the total value and the breakdown.
   */
  function ReportOf(username: string, items: seq<Item>): (r: Report)
    ensures r.generatedBy == username && r.productTypes == |items|
    ensures MinInt <= Catalog.TotalUnits(items) <= MaxInt ==> r.totalUnits == Catalog.TotalUnits(items)
    ensures r.totalValue == Catalog.TotalValue(items)
    ensures r.breakdown == Breakdown(items)
  {
    Report(username, |items|, Wrap(Catalog.TotalUnits(items)), Catalog.TotalValue(items), Breakdown(items))
  }

  // ------------------------------------------------------------ session

  /**
   * What a `ClientHandler` remembers between commands: the user name it
   * was given, the role, and its thread's interrupt flag.
   */
  datatype Session = Session(username: string, isAdmin: bool, interrupted: bool)

  /**
   * The decision `run` makes from the first two lines it reads (`None` is
   * end of stream): a missing or blank user name ends the session; the
   * role is admin exactly when the second line is "yes" in any letter case.
   */
  function Handshake(userLine: Option<string>, roleLine: Option<string>): (r: Option<Session>)
    ensures r.None? <==> userLine.None? || forall i :: 0 <= i < |userLine.value| ==> IsTrimmable(userLine.value[i])
    ensures r.Some? ==> r.value.username == userLine.value && !r.value.interrupted
    ensures r.Some? ==> (r.value.isAdmin <==> roleLine.Some? && EqualsIgnoreCase(roleLine.value, "yes"))
  {
    match userLine
    case None => None
    case Some(name) =>
      if Trim(name) == [] then None
      else Some(Session(name, roleLine.Some? && EqualsIgnoreCase(roleLine.value, "yes"), false))
  }

  /**
   * Carrying out an action against the store and the session: the new
   * store, the new session and the response the client is sent.
   * `EXIT` only sets the interrupt flag; the loop goes on reading, and a
   * later `DAILY_REPORT` finds `join` interrupted while the report thread sleeps.
   */
  function Perform(store: Catalog.Store, session: Session, a: Action): (r: (Catalog.Store, Session, Response))
    ensures r.1.username == session.username && r.1.isAdmin == session.isAdmin
    ensures r.1.interrupted <==> session.interrupted || a.Quit?
    ensures a.Reply? ==> r.0 == store && r.2 == a.response
    ensures a.MakeReport? ==> r.0 == store && (r.2 == ReportInterrupted <==> session.interrupted)
  {
    match a
    case Reply(r) => (store, session, r)
    case Invoke(req) =>
      var (s, r) := Catalog.Apply(store, req);
      (s, session, r)
    case MakeReport =>
      if session.interrupted then (store, session, ReportInterrupted)
      else (store, session, DailyReportText(ReportOf(session.username, store.items)))
    case Quit => (store, session.(interrupted := true), Disconnecting)
  }

  /** One command line handled against the store and the session. */
  function Respond(store: Catalog.Store, session: Session, line: string, parsePrice: string -> Option<int>)
    : (r: (Catalog.Store, Session, Response))
    ensures r.1.username == session.username && r.1.isAdmin == session.isAdmin
    ensures Trim(line) == [] ==> r == (store, session, EmptyCommand)
  {
    Perform(store, session, ParseCommand(line, session.isAdmin, parsePrice))
  }

  /** The actions a series of lines amounts to; the role a line is parsed with never changes after the handshake. */
  function ParseAll(lines: seq<string>, isAdmin: bool, parsePrice: string -> Option<int>): (r: seq<Action>)
    ensures |r| == |lines|
    ensures forall i :: 0 <= i < |lines| ==> r[i] == ParseCommand(lines[i], isAdmin, parsePrice)
  {
    seq(|lines|, i requires 0 <= i < |lines| => ParseCommand(lines[i], isAdmin, parsePrice))
  }

  /** The store, the session and the responses after carrying out a series of actions in order. */
  function PerformAll(store: Catalog.Store, session: Session, actions: seq<Action>)
    : (r: (Catalog.Store, Session, seq<Response>))
    ensures |r.2| == |actions|
    ensures r.1.username == session.username && r.1.isAdmin == session.isAdmin
    decreases |actions|
  {
    if actions == [] then (store, session, [])
    else
      var (s, t, x) := Perform(store, session, actions[0]);
      var (s', t', rs) := PerformAll(s, t, actions[1..]);
      (s', t', [x] + rs)
  }

  /** The command loop of `run`: each line read is trimmed, handled and answered in turn. */
  function Serve(store: Catalog.Store, session: Session, lines: seq<string>, parsePrice: string -> Option<int>)
    : (r: (Catalog.Store, Session, seq<Response>))
    ensures |r.2| == |lines|
    ensures r.1.username == session.username && r.1.isAdmin == session.isAdmin
  {
    PerformAll(store, session, ParseAll(lines, session.isAdmin, parsePrice))
  }
}
