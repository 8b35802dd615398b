/**
 * `ClientHandler`: one client's session against the shared inventory. Its
 * fields are the user name and role the handshake sets and the interrupt
 * flag of the thread that runs it; every command goes through the pure
 * dispatcher in `Protocol` and then into the `InventoryManager`.
 */
module Handler {
  import opened Java
  import opened Wrappers
  import opened Types
  import Catalog
  import CatalogLemmas
  import Protocol
  import ProtocolLemmas
  import Stock

  class ClientHandler {
    const inventory: Stock.InventoryManager
    /** `Double.parseDouble` followed by the conversion to cents; `None` is a NumberFormatException. */
    const parsePrice: string -> Option<int>
    /** The first line the client sent; `None` when the stream ended first (a Java `null`). */
    var username: Option<string>
    var isAdmin: bool
    /** The interrupt flag of the thread running this handler. */
    var interrupted: bool

    constructor (inventory: Stock.InventoryManager, parsePrice: string -> Option<int>)
      ensures this.inventory == inventory && this.parsePrice == parsePrice
      ensures username.None? && !isAdmin && !interrupted
    {
      this.inventory := inventory;
      this.parsePrice := parsePrice;
      username := None;
      isAdmin := false;
      interrupted := false;
    }

    /** The session as the dispatcher sees it; string concatenation writes a `null` name as "null". */
    function State(): Protocol.Session
      reads this
    {
      Protocol.Session(if username.Some? then username.value else "null", isAdmin, interrupted)
    }

    /**
     * The handshake in `run`: the name line is kept as read; a missing or
     * blank one refuses the session before the role is asked for.
     */
    method Authenticate(userLine: Option<string>, roleLine: Option<string>) returns (accepted: bool)
      requires !interrupted
      modifies this
      ensures username == userLine && interrupted == old(interrupted)
      ensures accepted <==> Protocol.Handshake(userLine, roleLine).Some?
      ensures accepted ==> State() == Protocol.Handshake(userLine, roleLine).value
      ensures !accepted ==> isAdmin == old(isAdmin)
    {
      username := userLine;
      if userLine.None? || Trim(userLine.value) == [] {
        return false;
      }
      isAdmin := roleLine.Some? && EqualsIgnoreCase(roleLine.value, "yes");
      accepted := true;
    }

    /**
     * `generateDailyReport` and `ReportCalculator.run`: with the flag set,
     * `join` throws and the report is refused; otherwise the totals and the
     * breakdown are taken over a snapshot of the product list. The unit
     * count is summed in `int`, wrapping at each step as `IntStream.sum` does.
     */
    method GenerateDailyReport() returns (r: Response)
      ensures interrupted ==> r == ReportInterrupted
      ensures !interrupted ==> r == DailyReportText(Protocol.ReportOf(State().username, inventory.Items()))
    {
      if interrupted {
        return ReportInterrupted;
      }
      var products := inventory.GetAllProducts();
      ghost var items := inventory.Items();
      var units: Int32 := 0;
      var value := 0;
      var lines: seq<ReportLine> := [];
      var i := 0;
      while i < |products|
        invariant 0 <= i <= |products|
        invariant units == Wrap(Catalog.TotalUnits(items[..i]))
        invariant value == Catalog.TotalValue(items[..i])
        invariant lines == Protocol.Breakdown(items[..i])
      {
        var p := products[i];
        ReportStep(items, i);
        units := Wrap(units + p.quantity);
        value := value + p.TotalValue();
        lines := lines + [ReportLine(p.name, p.quantity, p.price, p.TotalValue())];
        i := i + 1;
      }
      assert items[..i] == items;
      r := DailyReportText(Report(State().username, |products|, units, value, lines));
    }

    /** One call into the store, as `processCommand` makes it once the arguments are parsed. */
    method Invoke(req: Catalog.Request) returns (r: Response)
      requires inventory.Valid()
      modifies inventory, inventory.products
      ensures inventory.Valid()
      ensures (inventory.State(), r) == Catalog.Apply(old(inventory.State()), req)
      ensures forall j :: 0 <= j < |inventory.products| ==>
        inventory.products[j] in old(inventory.products) || fresh(inventory.products[j])
    {
      match req
      case ListAll => r := inventory.ListAllProducts();
      case Add(name, quantity, price) => r := inventory.AddProduct(name, quantity, price);
      case Restock(id, quantity) => r := inventory.AddStock(id, quantity);
      case Buy(id, quantity) => r := inventory.BuyStock(id, quantity);
      case Reprice(id, price) => r := inventory.UpdatePrice(id, price);
      case Total => r := inventory.CalculateTotalInventoryValue();
      case LowStockBelow(threshold) => r := inventory.FindLowStockItems(threshold);
      case Remove(id) => r := inventory.RemoveProduct(id);
    }

    /** Carrying out a parsed command: a fixed reply, a call into the store, the report or `EXIT`. */
    method PerformAction(action: Protocol.Action) returns (r: Response)
      requires inventory.Valid()
      modifies this, inventory, inventory.products
      ensures inventory.Valid()
      ensures (inventory.State(), State(), r) == Protocol.Perform(old(inventory.State()), old(State()), action)
      ensures username == old(username) && isAdmin == old(isAdmin)
      ensures forall j :: 0 <= j < |inventory.products| ==>
        inventory.products[j] in old(inventory.products) || fresh(inventory.products[j])
    {
      match action {
        case Reply(x) =>
          r := x;
        case Invoke(req) =>
          r := Invoke(req);
        case MakeReport =>
          r := GenerateDailyReport();
        case Quit =>
          // `Thread.currentThread().interrupt()`; the "Goodbye" line is sent first
          interrupted := true;
          r := Disconnecting;
      }
    }

    /** `processCommand` on a line the loop has read: the response, the new store and the new session. */
    method ProcessCommand(line: string) returns (r: Response)
      requires inventory.Valid()
      modifies this, inventory, inventory.products
      ensures inventory.Valid()
      ensures (inventory.State(), State(), r)
           == Protocol.Perform(old(inventory.State()), old(State()), Protocol.ParseCommand(line, isAdmin, parsePrice))
      ensures username == old(username) && isAdmin == old(isAdmin)
      ensures forall j :: 0 <= j < |inventory.products| ==>
        inventory.products[j] in old(inventory.products) || fresh(inventory.products[j])
    {
      var action := Protocol.ParseCommand(line, isAdmin, parsePrice);
      r := PerformAction(action);
    }

    /** One turn of the command loop: the next line is processed and its response goes after the others. */
    method ServeLine(ghost start: Catalog.Store, ghost session0: Protocol.Session, lines: seq<string>, i: nat,
                     ghost sent: seq<Response>) returns (r: Response)
      requires i < |lines| && inventory.Valid()
      requires Progress(start, session0, lines, parsePrice, i, sent, inventory.State(), State())
      modifies this, inventory, inventory.products
      ensures inventory.Valid()
      ensures Progress(start, session0, lines, parsePrice, i + 1, sent + [r], inventory.State(), State())
      ensures username == old(username) && isAdmin == old(isAdmin)
      ensures forall j :: 0 <= j < |inventory.products| ==>
        inventory.products[j] in old(inventory.products) || fresh(inventory.products[j])
    {
      ghost var store, session := inventory.State(), State();
      r := ProcessCommand(lines[i]);
      ServeAdvance(start, session0, lines, parsePrice, i, sent, store, session, r, inventory.State(), State());
    }

    /** The command loop of `run` over the lines the client sends until the stream ends. */
    method Serve(lines: seq<string>) returns (responses: seq<Response>)
      requires inventory.Valid()
      modifies this, inventory, inventory.products
      ensures inventory.Valid()
      ensures (inventory.State(), State(), responses) == Protocol.Serve(old(inventory.State()), old(State()), lines, parsePrice)
    {
      ghost var start, session0 := inventory.State(), State();
      ServeFrom(start, session0, lines, parsePrice);
      responses := ReadLoop(start, session0, lines);
      ServeDone(start, session0, lines, parsePrice, responses, inventory.State(), State());
    }

    /** The loop itself: each line read is processed in turn and its response sent. */
    method ReadLoop(ghost start: Catalog.Store, ghost session0: Protocol.Session, lines: seq<string>)
      returns (responses: seq<Response>)
      requires inventory.Valid()
      requires Progress(start, session0, lines, parsePrice, 0, [], inventory.State(), State())
      modifies this, inventory, inventory.products
      ensures inventory.Valid()
      ensures Progress(start, session0, lines, parsePrice, |lines|, responses, inventory.State(), State())
    {
      responses := [];
      var i := 0;
      while i < |lines|
        invariant 0 <= i <= |lines| && inventory.Valid()
        invariant forall j :: 0 <= j < |inventory.products| ==>
          inventory.products[j] in old(inventory.products) || fresh(inventory.products[j])
        invariant Progress(start, session0, lines, parsePrice, i, responses, inventory.State(), State())
      {
        var r := ServeLine(start, session0, lines, i, responses);
        responses := responses + [r];
        i := i + 1;
      }
    }
  }

  /** After `i` lines the outcome of the whole series is the responses sent, then the outcome of the rest. */
  ghost predicate Progress(start: Catalog.Store, session0: Protocol.Session, lines: seq<string>,
                           parsePrice: string -> Option<int>, i: nat, sent: seq<Response>,
                           store: Catalog.Store, session: Protocol.Session)
  {
    && i <= |lines| && session.isAdmin == session0.isAdmin
    && Protocol.Serve(start, session0, lines, parsePrice)
       == Then(sent, Protocol.PerformAll(store, session, Protocol.ParseAll(lines, session0.isAdmin, parsePrice)[i..]))
  }

  lemma ServeFrom(start: Catalog.Store, session0: Protocol.Session, lines: seq<string>,
                  parsePrice: string -> Option<int>)
    ensures Progress(start, session0, lines, parsePrice, 0, [], start, session0)
  {
    var actions := Protocol.ParseAll(lines, session0.isAdmin, parsePrice);
    assert actions[0..] == actions;
    var x := Protocol.PerformAll(start, session0, actions);
    assert [] + x.2 == x.2;
  }

  lemma ServeAdvance(start: Catalog.Store, session0: Protocol.Session, lines: seq<string>,
                     parsePrice: string -> Option<int>, i: nat, sent: seq<Response>,
                     store: Catalog.Store, session: Protocol.Session,
                     r: Response, store': Catalog.Store, session': Protocol.Session)
    requires i < |lines| && Progress(start, session0, lines, parsePrice, i, sent, store, session)
    requires (store', session', r) == Protocol.Perform(store, session, Protocol.ParseCommand(lines[i], session.isAdmin, parsePrice))
    requires session'.isAdmin == session.isAdmin
    ensures Progress(start, session0, lines, parsePrice, i + 1, sent + [r], store', session')
  {
    var actions := Protocol.ParseAll(lines, session0.isAdmin, parsePrice);
    var rest := actions[i..];
    assert rest[0] == Protocol.ParseCommand(lines[i], session.isAdmin, parsePrice) && rest[1..] == actions[i + 1..];
    PerformAllStep(store, session, rest);
    ThenThen(sent, [r], Protocol.PerformAll(store', session', actions[i + 1..]));
  }

  lemma ServeDone(start: Catalog.Store, session0: Protocol.Session, lines: seq<string>,
                  parsePrice: string -> Option<int>, sent: seq<Response>,
                  store: Catalog.Store, session: Protocol.Session)
    requires Progress(start, session0, lines, parsePrice, |lines|, sent, store, session)
    ensures Protocol.Serve(start, session0, lines, parsePrice) == (store, session, sent)
  {
    var actions := Protocol.ParseAll(lines, session0.isAdmin, parsePrice);
    assert actions[|lines|..] == [];
    assert sent + [] == sent;
  }

  /** One more product in the report: its line goes last, and the sums grow by its quantity and value. */
  lemma ReportStep(items: seq<Item>, i: nat)
    requires i < |items|
    ensures Wrap(Catalog.TotalUnits(items[..i + 1])) == Wrap(Wrap(Catalog.TotalUnits(items[..i])) + items[i].quantity)
    ensures Catalog.TotalValue(items[..i + 1]) == Catalog.TotalValue(items[..i]) + Value(items[i])
    ensures Protocol.Breakdown(items[..i + 1])
         == Protocol.Breakdown(items[..i]) + [ReportLine(items[i].name, items[i].quantity, items[i].price, Value(items[i]))]
  {
    assert items[..i + 1] == items[..i] + [items[i]];
    CatalogLemmas.TotalUnitsAppend(items[..i], [items[i]]);
    CatalogLemmas.TotalValueAppend(items[..i], [items[i]]);
    WrapAdd(Catalog.TotalUnits(items[..i]), items[i].quantity);
  }

  /** The responses already sent, followed by the outcome of the lines still to come. */
  function Then(sent: seq<Response>, rest: (Catalog.Store, Protocol.Session, seq<Response>))
    : (Catalog.Store, Protocol.Session, seq<Response>)
  {
    (rest.0, rest.1, sent + rest.2)
  }

  lemma ThenThen(a: seq<Response>, b: seq<Response>, x: (Catalog.Store, Protocol.Session, seq<Response>))
    ensures Then(a, Then(b, x)) == Then(a + b, x)
  {
    assert a + (b + x.2) == (a + b) + x.2;
  }

  /** Carrying out the first action and then the rest is carrying out all of them. */
  lemma PerformAllStep(store: Catalog.Store, session: Protocol.Session, actions: seq<Protocol.Action>)
    requires actions != []
    ensures var (s, t, r) := Protocol.Perform(store, session, actions[0]);
      Protocol.PerformAll(store, session, actions) == Then([r], Protocol.PerformAll(s, t, actions[1..]))
  {
  }
}
