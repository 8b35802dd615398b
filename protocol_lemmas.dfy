/**
 * Properties of the command dispatcher and of whole sessions: case-blind
 * verbs, the help text per role, what a non-admin can and cannot change,
 * that an error changes nothing, the report's totals and the effect of `EXIT`.
 */
module ProtocolLemmas {
  import opened Java
  import opened Wrappers
  import opened Types
  import opened Commands
  import opened Catalog
  import opened Protocol
  import CatalogLemmas

  // ------------------------------------------------------------ verbs

  lemma VerbOfName(v: Verb)
    ensures VerbOf(VerbName(v)) == Some(v)
  {
    match v {
      case Help =>
      case List =>
      case AddProduct =>
      case AddStock =>
      case BuyStock =>
      case UpdatePrice =>
      case Analytics =>
      case LowStock =>
      case DailyReport =>
      case RemoveProduct =>
      case Exit =>
    }
  }

  /**
   * The first word names verb `v` exactly when it equals `v`'s spelling
   * ignoring letter case and holds neither capital I with dot nor the Kelvin
   * sign, the two characters `toUpperCase` leaves apart from the ASCII letter
   * they match.
   */
  lemma VerbIgnoresCase(t: string, v: Verb)
    ensures VerbOf(Upper(t)) == Some(v) <==>
      EqualsIgnoreCase(t, VerbName(v)) && forall i :: 0 <= i < |t| ==> !FoldsOnlyByLowerCase(t[i])
  {
    VerbNameIsAsciiWord(v);
    UpperMatchesIgnoringCase(t, VerbName(v));
    VerbOfName(v);
  }

  /** "buy_stoc" followed by the Kelvin sign equals "BUY_STOCK" ignoring case, yet the `switch` finds no verb in it. */
  lemma KelvinSignIsUnknown(parts: seq<string>, isAdmin: bool, parsePrice: string -> Option<int>)
    requires |parts| >= 1 && parts[0] == "buy_stoc\U{212A}"
    ensures EqualsIgnoreCase(parts[0], VerbName(BuyStock))
    ensures Dispatch(parts, isAdmin, parsePrice) == Reply(UnknownCommand)
  {
    assert Upper(parts[0]) == "BUY_STOC\U{212A}";
  }

  // ------------------------------------------------------------ help

  lemma PrefixOfAppend(a: string, b: string)
    ensures a <= a + b
  {
    assert (a + b)[..|a|] == a;
  }

  /** The help text describes each verb but `HELP` itself on a line that starts with the verb. */
  lemma HelpDescribesVerb(isAdmin: bool, v: Verb)
    requires v != Help && (isAdmin || !AdminVerb(v))
    ensures Mentions(HelpMessage(isAdmin), VerbName(v))
  {
    var r := HelpMessage(isAdmin);
    var u := ["", CommandsHeader] + UserHelp();
    assert r[..7] == u;
    var (i, suffix) :=
      match v
      case List => (2, " - List all products")
      case BuyStock => (3, " <productId> <quantity> - Purchase stock")
      case Analytics => (4, " - Show total inventory value (uses parallel processing)")
      case LowStock => (5, " [threshold] - Find low stock items (default threshold: 20)")
      case DailyReport => (6, " - Generate comprehensive daily report")
      case AddProduct => (9, " <name> <quantity> <price> - Add new product")
      case AddStock => (10, " <productId> <quantity> - Add stock to existing product")
      case UpdatePrice => (11, " <productId> <newPrice> - Update product price")
      case RemoveProduct => (12, " <productId> - Remove a product")
      case _ => (|r| - 1, " - Disconnect from server");
    assert 0 <= i < |r| && r[i] == VerbName(v) + suffix;
    PrefixOfAppend(VerbName(v), suffix);
  }

  /** No line of a user's help text starts with an admin verb. */
  lemma HelpHidesAdminVerbs(v: Verb)
    requires AdminVerb(v)
    ensures !Mentions(HelpMessage(false), VerbName(v))
  {
    var r := HelpMessage(false);
    var w := VerbName(v);
    var u := UserHelp();
    assert r == ["", CommandsHeader] + u + ["", ExitHelp];
    assert |w| >= 2 && (w[1] == 'D' || w[1] == 'P' || w[1] == 'E');
    assert u[0][1] == 'I' && u[1][1] == 'U' && u[2][1] == 'N' && u[3][1] == 'O' && u[4][1] == 'A';
    assert CommandsHeader[1] == '=' && ExitHelp[1] == 'X';
    forall i | 0 <= i < |r| ensures |r[i]| < 2 || r[i][1] != w[1] {
      if 2 <= i < 7 {
        assert r[i] == u[i - 2];
      }
    }
  }

  /**
   * Every verb but `HELP` itself is described in the help text exactly when
   * the session may use it: the admin verbs only for an admin.
   */
  lemma HelpListsUsableVerbs(isAdmin: bool, v: Verb)
    requires v != Help
    ensures Mentions(HelpMessage(isAdmin), VerbName(v)) <==> isAdmin || !AdminVerb(v)
  {
    if isAdmin || !AdminVerb(v) {
      HelpDescribesVerb(isAdmin, v);
    } else {
      HelpHidesAdminVerbs(v);
    }
  }

  // ------------------------------------------------------------ one command

  /** Carrying out any action leaves the store's ids unique, increasing and below the counter. */
  lemma PerformPreservesValid(store: Store, session: Session, a: Action)
    requires Valid(store)
    ensures Valid(Perform(store, session, a).0)
  {
    if a.Invoke? {
      CatalogLemmas.ApplyPreservesValid(store, a.request);
    }
  }

  lemma RespondPreservesValid(store: Store, session: Session, line: string, parsePrice: string -> Option<int>)
    requires Valid(store)
    ensures Valid(Respond(store, session, line, parsePrice).0)
  {
    PerformPreservesValid(store, session, ParseCommand(line, session.isAdmin, parsePrice));
  }

  /** An action answered with an "ERROR:" line changes neither the store nor the session. */
  lemma PerformErrorChangesNothing(store: Store, session: Session, a: Action)
    ensures var (s, t, r) := Perform(store, session, a);
      IsError(r) ==> s == store && t == session
  {
    if a.Invoke? {
      CatalogLemmas.FailedRequestChangesNothing(store, a.request);
    }
  }

  /** A command line answered with an "ERROR:" line changes neither the store nor the session. */
  lemma ErrorsChangeNothing(store: Store, session: Session, line: string, parsePrice: string -> Option<int>)
    ensures var (s, t, r) := Respond(store, session, line, parsePrice);
      IsError(r) ==> s == store && t == session
  {
    PerformErrorChangesNothing(store, session, ParseCommand(line, session.isAdmin, parsePrice));
  }

  /** The store is left with the same products, ids, names, prices and counter; only quantities may differ. */
  predicate SameButQuantities(s: Store, s': Store) {
    && s'.nextId == s.nextId && |s'.items| == |s.items|
    && forall i :: 0 <= i < |s'.items| ==> s'.items[i] == s.items[i].(quantity := s'.items[i].quantity)
  }

  lemma PerformNonAdmin(store: Store, session: Session, a: Action)
    requires Valid(store)
    requires a.Invoke? ==> !AdminRequest(a.request)
    ensures SameButQuantities(store, Perform(store, session, a).0)
  {
    if a.Invoke? && a.request.Buy? {
      var req := a.request;
      match IndexOf(store.items, req.id)
      case None =>
      case Some(k) =>
        if store.items[k].quantity >= req.quantity {
          CatalogLemmas.BuyStockEffect(store, k, req.quantity);
        }
    }
  }

  /**
   * A session without the admin role can change quantities and nothing
   * else: the products, their order, ids, names and prices and the counter stay.
   */
  lemma NonAdminChangesOnlyQuantities(store: Store, session: Session, line: string, parsePrice: string -> Option<int>)
    requires Valid(store) && !session.isAdmin
    ensures SameButQuantities(store, Respond(store, session, line, parsePrice).0)
  {
    PerformNonAdmin(store, session, ParseCommand(line, session.isAdmin, parsePrice));
  }

  /** Only `EXIT` is answered "Disconnecting...", and only it changes the session: it sets the interrupt flag. */
  lemma PerformSession(store: Store, session: Session, a: Action)
    requires a.Reply? ==> a.response != Disconnecting
    ensures var (s, t, r) := Perform(store, session, a);
      && (r == Disconnecting <==> a == Quit)
      && (a == Quit ==> s == store && t == session.(interrupted := true))
      && (a != Quit ==> t == session)
  {
    if a.Invoke? {
      var r := Apply(store, a.request).1;
      assert r != Disconnecting;
    }
  }

  /** `EXIT` is answered "Disconnecting...", leaves the store alone and sets the interrupt flag; no other line changes the session. */
  lemma DisconnectingOnlyOnExit(store: Store, session: Session, line: string, parsePrice: string -> Option<int>)
    ensures var (s, t, r) := Respond(store, session, line, parsePrice);
      var a := ParseCommand(line, session.isAdmin, parsePrice);
      && (r == Disconnecting <==> a == Quit)
      && (a == Quit ==> s == store && t == session.(interrupted := true))
      && (a != Quit ==> t == session)
  {
    PerformSession(store, session, ParseCommand(line, session.isAdmin, parsePrice));
  }

  // ------------------------------------------------------------ the report

  lemma {:induction false} BreakdownSumsToTotal(items: seq<Item>)
    ensures LinesValue(Breakdown(items)) == TotalValue(items)
  {
    if items != [] {
      assert Breakdown(items)[1..] == Breakdown(items[1..]);
      BreakdownSumsToTotal(items[1..]);
    }
  }

  /** The breakdown lines' values add up to the report's total value, one line per product. */
  lemma ReportBreakdownAddsUp(username: string, items: seq<Item>)
    ensures var r := ReportOf(username, items);
      LinesValue(r.breakdown) == r.totalValue && |r.breakdown| == r.productTypes
  {
    BreakdownSumsToTotal(items);
  }

  /**
   * The report and `ANALYTICS` agree: asked of the same store, the report's
   * total value is the total `ANALYTICS` answers, its product count is the
   * number of products, and its unit count the `int` sum of the quantities.
   */
  lemma ReportMatchesAnalytics(store: Store, session: Session)
    requires !session.interrupted
    ensures var (s, t, r) := Perform(store, session, MakeReport);
      var (s', t', r') := Perform(store, session, Invoke(Total));
      && s == store && s' == store && t == session && t' == session
      && r.DailyReportText? && r'.InventoryValue?
      && r.report.totalValue == r'.total
      && r.report.productTypes == |store.items|
      && r.report.totalUnits == Wrap(TotalUnits(store.items))
      && r.report.generatedBy == session.username
  {
  }

  // ------------------------------------------------------------ whole sessions

  /** No fixed reply among the actions is "Disconnecting...". */
  predicate NoFalseExit(actions: seq<Action>) {
    forall i :: 0 <= i < |actions| ==> actions[i].Reply? ==> actions[i].response != Disconnecting
  }

  lemma ParsedNoFalseExit(lines: seq<string>, isAdmin: bool, parsePrice: string -> Option<int>)
    ensures NoFalseExit(ParseAll(lines, isAdmin, parsePrice))
  {
  }

  /** Once the flag is set the session stays as it is, and every report request fails. */
  lemma {:induction false} InterruptedStaysInterrupted(store: Store, session: Session, actions: seq<Action>)
    requires session.interrupted && NoFalseExit(actions)
    ensures var (_, u, rs) := PerformAll(store, session, actions);
      && u == session
      && forall i :: 0 <= i < |actions| && actions[i] == MakeReport ==> rs[i] == ReportInterrupted
    decreases |actions|
  {
    if actions != [] {
      var (s, t, r) := Perform(store, session, actions[0]);
      PerformSession(store, session, actions[0]);
      assert t == session;
      assert NoFalseExit(actions[1..]) by {
        forall i | 0 <= i < |actions[1..]| ensures actions[1..][i].Reply? ==> actions[1..][i].response != Disconnecting {
          assert actions[1..][i] == actions[i + 1];
        }
      }
      InterruptedStaysInterrupted(s, t, actions[1..]);
      var rs := PerformAll(store, session, actions).2;
      var rs' := PerformAll(s, t, actions[1..]).2;
      assert rs == [r] + rs';
      forall i | 0 <= i < |actions| && actions[i] == MakeReport ensures rs[i] == ReportInterrupted {
        if i > 0 {
          assert actions[i] == actions[1..][i - 1];
        }
      }
    }
  }

  /** After `EXIT`, the session stays interrupted and every later `DAILY_REPORT` fails with "Report generation interrupted". */
  lemma ReportAfterExit(store: Store, session: Session, exitLine: string, lines: seq<string>,
                        parsePrice: string -> Option<int>)
    requires ParseCommand(exitLine, session.isAdmin, parsePrice) == Quit
    ensures var (s, t, _) := Respond(store, session, exitLine, parsePrice);
      var (_, u, rs) := Serve(s, t, lines, parsePrice);
      u.interrupted && forall i :: 0 <= i < |lines| && ParseCommand(lines[i], session.isAdmin, parsePrice) == MakeReport ==>
        rs[i] == ReportInterrupted
  {
    DisconnectingOnlyOnExit(store, session, exitLine, parsePrice);
    var (s, t, _) := Respond(store, session, exitLine, parsePrice);
    var actions := ParseAll(lines, t.isAdmin, parsePrice);
    ParsedNoFalseExit(lines, t.isAdmin, parsePrice);
    InterruptedStaysInterrupted(s, t, actions);
  }

  /**
   * An id that is not in the store and below the counter (a removed one)
   * is never handed out again, whatever actions follow.
   */
  lemma {:induction false} NeverReusesIds(store: Store, session: Session, actions: seq<Action>, id: int)
    requires Valid(store) && id < store.nextId && !HasId(store.items, id)
    ensures var s := PerformAll(store, session, actions).0;
      Valid(s) && id < s.nextId && !HasId(s.items, id)
    decreases |actions|
  {
    if actions != [] {
      var (s, t, _) := Perform(store, session, actions[0]);
      if actions[0].Invoke? {
        CatalogLemmas.AbsentIdStaysAbsent(store, id, actions[0].request);
      }
      NeverReusesIds(s, t, actions[1..], id);
    }
  }

  /** However a session goes on, a removed id never reappears. */
  lemma ServeNeverReusesIds(store: Store, session: Session, lines: seq<string>, id: int,
                            parsePrice: string -> Option<int>)
    requires Valid(store) && id < store.nextId && !HasId(store.items, id)
    ensures var s := Serve(store, session, lines, parsePrice).0;
      Valid(s) && id < s.nextId && !HasId(s.items, id)
  {
    NeverReusesIds(store, session, ParseAll(lines, session.isAdmin, parsePrice), id);
  }

  /** None of the actions is an admin call into the store. */
  predicate NoAdminRequests(actions: seq<Action>) {
    forall i :: 0 <= i < |actions| ==> actions[i].Invoke? ==> !AdminRequest(actions[i].request)
  }

  lemma {:induction false} UserActionsKeepCatalog(store: Store, session: Session, actions: seq<Action>)
    requires Valid(store) && NoAdminRequests(actions)
    ensures SameButQuantities(store, PerformAll(store, session, actions).0)
    decreases |actions|
  {
    if actions != [] {
      var (s, t, _) := Perform(store, session, actions[0]);
      PerformNonAdmin(store, session, actions[0]);
      PerformPreservesValid(store, session, actions[0]);
      assert NoAdminRequests(actions[1..]) by {
        forall i | 0 <= i < |actions[1..]| ensures actions[1..][i].Invoke? ==> !AdminRequest(actions[1..][i].request) {
          assert actions[1..][i] == actions[i + 1];
        }
      }
      UserActionsKeepCatalog(s, t, actions[1..]);
    }
  }

  /** A whole session without the admin role never adds or removes products or changes a name or price. */
  lemma NonAdminSessionKeepsCatalog(store: Store, session: Session, lines: seq<string>,
                                    parsePrice: string -> Option<int>)
    requires Valid(store) && !session.isAdmin
    ensures SameButQuantities(store, Serve(store, session, lines, parsePrice).0)
  {
    UserActionsKeepCatalog(store, session, ParseAll(lines, session.isAdmin, parsePrice));
  }

  // ------------------------------------------------------------ the handshake

  /**
   * "yes" ignoring case means the three letters y, e, s, each in either
   * case, where the s may also be a long s (U+017F), whose upper case is S.
   */
  lemma YesIgnoringCase(a: string)
    ensures EqualsIgnoreCase(a, "yes") <==>
      && |a| == 3 && (a[0] == 'y' || a[0] == 'Y') && (a[1] == 'e' || a[1] == 'E')
      && (a[2] == 's' || a[2] == 'S' || a[2] == '\U{017F}')
  {
    if |a| == 3 {
      assert CharEqualsIgnoreCase(a[0], 'y') <==> a[0] == 'y' || a[0] == 'Y';
      assert CharEqualsIgnoreCase(a[1], 'e') <==> a[1] == 'e' || a[1] == 'E';
      assert CharEqualsIgnoreCase(a[2], 's') <==> a[2] == 's' || a[2] == 'S' || a[2] == '\U{017F}';
    }
  }

  // ------------------------------------------------------------ scenarios

  /**
   * A line typed as words separated by single spaces is handled as those
   * words: the verb is the first of them, in any letter case.
   */
  lemma ParseWords(ws: seq<string>, isAdmin: bool, parsePrice: string -> Option<int>)
    requires |ws| >= 1 && forall k :: 0 <= k < |ws| ==> IsWord(ws[k])
    ensures ParseCommand(Join(ws), isAdmin, parsePrice) == Dispatch(ws, isAdmin, parsePrice)
  {
    TrimOfJoin(ws);
    TokensOfJoin(ws);
    JoinEnds(ws);
  }

  /** Whatever its letter case and arguments, a line whose first word spells an admin verb is refused to a user. */
  lemma UserRefusedAdminVerb(store: Store, session: Session, ws: seq<string>, v: Verb,
                             parsePrice: string -> Option<int>)
    requires |ws| >= 1 && forall k :: 0 <= k < |ws| ==> IsWord(ws[k])
    requires !session.isAdmin && AdminVerb(v) && EqualsIgnoreCase(ws[0], VerbName(v))
    requires forall i :: 0 <= i < |ws[0]| ==> !FoldsOnlyByLowerCase(ws[0][i])
    ensures Respond(store, session, Join(ws), parsePrice) == (store, session, AdminOnly(v))
  {
    ParseWords(ws, session.isAdmin, parsePrice);
    VerbIgnoresCase(ws[0], v);
  }

  // ------------------------------------------------------------ requests from words

  /**
   * The dispatcher issues a store request exactly when the first word names
   * the request's verb, the role may use it, enough words are given, and the
   * words carry the request's arguments.
   */
  lemma DispatchInvokes(parts: seq<string>, isAdmin: bool, parsePrice: string -> Option<int>, req: Request)
    requires |parts| >= 1
    ensures Dispatch(parts, isAdmin, parsePrice) == Invoke(req) <==>
      && VerbOf(Upper(parts[0])) == Some(RequestVerb(req))
      && (isAdmin || !AdminRequest(req))
      && |parts| >= MinParts(RequestVerb(req))
      && Carries(parts, req, parsePrice)
  {
  }

  /**
   * Once the role and the number of words are right, a command is answered
   * "Invalid number format" exactly when one of the number words it reads
   * fails to parse.
   */
  lemma DispatchNumberFormat(parts: seq<string>, isAdmin: bool, parsePrice: string -> Option<int>, v: Verb)
    requires |parts| >= 1 && VerbOf(Upper(parts[0])) == Some(v)
    requires (isAdmin || !AdminVerb(v)) && |parts| >= MinParts(v)
    ensures Dispatch(parts, isAdmin, parsePrice) == Reply(InvalidNumberFormat) <==> !NumbersParse(v, parts, parsePrice)
  {
    match v {
      case AddProduct => assert 2 in IntArgs(v) && 3 in PriceArgs(v);
      case AddStock => assert 1 in IntArgs(v) && 2 in IntArgs(v);
      case BuyStock => assert 1 in IntArgs(v) && 2 in IntArgs(v);
      case UpdatePrice => assert 1 in IntArgs(v) && 2 in PriceArgs(v);
      case LowStock => assert 1 in IntArgs(v);
      case RemoveProduct => assert 1 in IntArgs(v);
      case _ =>
    }
  }

  /** `HELP` answers with the role's help text, `DAILY_REPORT` asks for the report and `EXIT` quits, whatever follows them. */
  lemma DispatchFixedReplies(parts: seq<string>, isAdmin: bool, parsePrice: string -> Option<int>)
    requires |parts| >= 1
    ensures VerbOf(Upper(parts[0])) == Some(Help) ==>
      Dispatch(parts, isAdmin, parsePrice) == Reply(HelpText(HelpMessage(isAdmin)))
    ensures VerbOf(Upper(parts[0])) == Some(DailyReport) <==> Dispatch(parts, isAdmin, parsePrice) == MakeReport
    ensures VerbOf(Upper(parts[0])) == Some(Exit) <==> Dispatch(parts, isAdmin, parsePrice) == Quit
  {
  }

  /** The words a client types for a request, with its numbers in decimal, dispatch to that request. */
  lemma DispatchRoundTrip(req: Request, priceText: string, isAdmin: bool, parsePrice: string -> Option<int>)
    requires isAdmin || !AdminRequest(req)
    requires req.Add? || req.Reprice? ==> parsePrice(priceText) == Some(req.price)
    ensures Dispatch(RequestWords(req, priceText), isAdmin, parsePrice) == Invoke(req)
  {
    var ws := RequestWords(req, priceText);
    var v := RequestVerb(req);
    VerbOfName(v);
    UpperOfUpperCase(VerbName(v));
    match req {
      case ListAll =>
      case Add(_, q, _) => ParseIntRoundTrip(q);
      case Restock(id, q) => ParseIntRoundTrip(id); ParseIntRoundTrip(q);
      case Buy(id, q) => ParseIntRoundTrip(id); ParseIntRoundTrip(q);
      case Reprice(id, _) => ParseIntRoundTrip(id);
      case Total =>
      case LowStockBelow(t) => ParseIntRoundTrip(t);
      case Remove(id) => ParseIntRoundTrip(id);
    }
    DispatchInvokes(ws, isAdmin, parsePrice, req);
  }

  lemma DecimalIsWord(n: int)
    ensures IsWord(DecimalString(n))
  {
    var d := NatDigits(if n < 0 then -n else n);
    assert forall i :: 0 <= i < |d| ==> IsDigit(d[i]);
  }

  /** A request's words are words a client can type, when its name and price text are. */
  lemma RequestWordsAreWords(req: Request, priceText: string)
    requires req.Add? ==> IsWord(req.name)
    requires req.Add? || req.Reprice? ==> IsWord(priceText)
    ensures var ws := RequestWords(req, priceText); forall k :: 0 <= k < |ws| ==> IsWord(ws[k])
  {
    VerbNameIsAsciiWord(RequestVerb(req));
    match req {
      case ListAll =>
      case Add(_, q, _) => DecimalIsWord(q);
      case Restock(id, q) => DecimalIsWord(id); DecimalIsWord(q);
      case Buy(id, q) => DecimalIsWord(id); DecimalIsWord(q);
      case Reprice(id, _) => DecimalIsWord(id);
      case Total =>
      case LowStockBelow(t) => DecimalIsWord(t);
      case Remove(id) => DecimalIsWord(id);
    }
  }

  /**
   * A line holding a request's words, separated by single spaces, performs
   * that request on the store and answers with the store's response.
   */
  lemma LineRoundTrip(store: Store, session: Session, req: Request, priceText: string,
                      parsePrice: string -> Option<int>)
    requires session.isAdmin || !AdminRequest(req)
    requires req.Add? ==> IsWord(req.name)
    requires req.Add? || req.Reprice? ==> IsWord(priceText) && parsePrice(priceText) == Some(req.price)
    ensures var (s, r) := Apply(store, req);
      Respond(store, session, Join(RequestWords(req, priceText)), parsePrice) == (s, session, r)
  {
    var ws := RequestWords(req, priceText);
    assert ParseCommand(Join(ws), session.isAdmin, parsePrice) == Invoke(req) by {
      RequestWordsAreWords(req, priceText);
      ParseWords(ws, session.isAdmin, parsePrice);
      DispatchRoundTrip(req, priceText, session.isAdmin, parsePrice);
    }
  }

  /** On the seeded store, the first product an admin adds gets id 6 and goes last. */
  lemma SeedAdminAddsProductSix(session: Session, name: string, quantity: Int32, price: int)
    ensures var (s, t, r) := Perform(Seed(), session, Invoke(Add(name, quantity, price)));
      && r == ProductAdded(Item(6, name, quantity, price))
      && s.nextId == 7 && |s.items| == 6 && s.items[5].id == 6 && t == session
  {
    CatalogLemmas.SeedCatalog();
  }
}
