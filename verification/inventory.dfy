/**
 * The inventory and the four book requests (manejarLibros in src/server.c).
 * The inventory is the flat array of copy records; every request scans it
 * linearly for records of the requested title (isbn and name). Dates are
 * whole day numbers and "now" comes from the Env.
 */
module Inventory {
  import opened Wrappers
  import opened Common
  import opened Packets
  import opened Registry

  /** Copy states: 'D' available, 'P' lent. */
  const Available := 'D'
  const Lent := 'P'

  /** The prefix of a renewal reply whose due date had already passed. */
  const LateTag := "(DEVOLUCION TARDE) "

  /** The record belongs to the requested title (same isbn, same name). */
  predicate SameTitle(c: Copy, req: Copy)
  {
    c.isbn == req.isbn && c.name == req.name
  }

  /** What a scan looks for: any copy of the title, an available one, or the requested lent copy. */
  datatype Scan = AnyCopy | AvailableCopy | LentCopy

  predicate Meets(c: Copy, req: Copy, scan: Scan)
  {
    && SameTitle(c, req)
    && match scan
       case AnyCopy => true
       case AvailableCopy => c.info.state == Available
       case LentCopy => c.info.state == Lent && c.info.number == req.info.number
  }

  predicate TitleExists(s: seq<Copy>, req: Copy)
  {
    exists i :: 0 <= i < |s| && SameTitle(s[i], req)
  }

  /** The index of the first record a scan stops at, if any. */
  function FirstIndex(s: seq<Copy>, req: Copy, scan: Scan): (r: Option<nat>)
    ensures r.Some? ==> r.value < |s| && Meets(s[r.value], req, scan)
    ensures r.Some? ==> (forall j :: 0 <= j < r.value ==> !Meets(s[j], req, scan))
    ensures r.None? ==> (forall j :: 0 <= j < |s| ==> !Meets(s[j], req, scan))
  {
    if |s| == 0 then None
    else if Meets(s[0], req, scan) then Some(0)
    else
      match FirstIndex(s[1..], req, scan)
      case None => None
      case Some(i) => Some(i + 1)
  }

  /** Every copy number appears at most once within a title. */
  predicate UniqueNumbers(s: seq<Copy>)
  {
    forall i, j ::
      (0 <= i < |s| && 0 <= j < |s| && SameTitle(s[i], s[j]) && s[i].info.number == s[j].info.number) ==> i == j
  }

  /* ----- Texts of the replies ----- */

  function DigitChar(d: nat): (ch: char)
    requires d < 10
    ensures '0' <= ch <= '9'
  {
    "0123456789"[d]
  }

  /** Decimal digits of a natural number. */
  function NatText(n: nat): (t: string)
    ensures |t| >= 1 && '0' <= t[0] <= '9'
  {
    if n < 10 then [DigitChar(n)] else NatText(n / 10) + [DigitChar(n % 10)]
  }

  /** `%d`: decimal text of an integer. */
  function IntText(n: int): (t: string)
    ensures |t| >= 1 && (t[0] == '-' || '0' <= t[0] <= '9')
  {
    if n < 0 then "-" + NatText(-n) else NatText(n)
  }

  /** The text of a date; stands in for the dd-mm-YYYY rendering of the day. */
  function DateText(day: int): string
  {
    IntText(day)
  }

  /** The text after the due date of a loan: " (Ejemplar #n)". */
  function CopyTag(number: int): string
  {
    " (Ejemplar #" + IntText(number) + ")"
  }

  /* ----- Changes to one record ----- */

  /** Borrow: the copy becomes lent, due in a week. */
  function Lend(c: Copy, now: int): Copy
  {
    c.(info := c.info.(state := Lent, date := now + WeekDays))
  }

  /** The due date one week after the current one has already passed. */
  predicate Late(c: Copy, now: int)
  {
    c.info.date + WeekDays < now
  }

  /** Renew: a week more from the due date, or from today when that is already past. */
  function Prolong(c: Copy, now: int): Copy
  {
    c.(info := c.info.(state := Lent,
                       date := if Late(c, now) then now + WeekDays else c.info.date + WeekDays))
  }

  /** Return: the copy becomes available, dated today. */
  function GiveBack(c: Copy, now: int): Copy
  {
    c.(info := c.info.(state := Available, date := now))
  }

  /* ----- The four requests ----- */

  /** The inventory after a request, the body of its one reply, and the status returned. */
  datatype Answer = Answer(inv: seq<Copy>, body: Body, status: int)

  /** The ERROR reply of a refused request: nothing changes. */
  function Refusal(s: seq<Copy>): Answer
  {
    Answer(s, Signal(ErrorCode, ""), ErrorSolicitud)
  }

  /** Status after a granted request: success unless the reply could not be written. */
  function Granted(env: Env): int
  {
    if env.writeOk then SuccessGeneric else ErrorSolicitud
  }

  /** SOLICITAR. */
  function Borrow(s: seq<Copy>, req: Copy, env: Env): Answer
  {
    if !TitleExists(s, req) then Refusal(s)
    else
      match FirstIndex(s, req, AvailableCopy)
      case None => Refusal(s)
      case Some(k) =>
        var c := Lend(s[k], env.now);
        Answer(s[k := c], Signal(Solicitud, DateText(c.info.date) + CopyTag(c.info.number)), Granted(env))
  }

  /** RENOVAR. */
  function Renew(s: seq<Copy>, req: Copy, env: Env): Answer
  {
    if !TitleExists(s, req) then Refusal(s)
    else
      match FirstIndex(s, req, LentCopy)
      case None => Refusal(s)
      case Some(k) =>
        var c := Prolong(s[k], env.now);
        var text := if Late(s[k], env.now) then LateTag + DateText(c.info.date) else DateText(c.info.date);
        Answer(s[k := c], Signal(Renovacion, text), Granted(env))
  }

  /** DEVOLVER. */
  function Return(s: seq<Copy>, req: Copy, env: Env): Answer
  {
    if !TitleExists(s, req) then Refusal(s)
    else
      match FirstIndex(s, req, LentCopy)
      case None => Refusal(s)
      case Some(k) =>
        var c := GiveBack(s[k], env.now);
        Answer(s[k := c], Signal(Devolucion, DateText(env.now)), Granted(env))
  }

  /** BUSCAR: the first record of the title as a BOOK body, or an ERR body. */
  function Search(s: seq<Copy>, req: Copy, env: Env): Answer
  {
    match FirstIndex(s, req, AnyCopy)
    case Some(k) => Answer(s, Book(s[k]), if env.writeOk then SuccessGeneric else ErrorComunicacion)
    case None => Answer(s, Err(ErrorCode), ErrorSolicitud)
  }

  /** The request a petition code names, or None for an unknown code. */
  function Apply(s: seq<Copy>, req: Copy, env: Env): Option<Answer>
  {
    if req.petition == Solicitar then Some(Borrow(s, req, env))
    else if req.petition == Renovar then Some(Renew(s, req, env))
    else if req.petition == Devolver then Some(Return(s, req, env))
    else if req.petition == Buscar then Some(Search(s, req, env))
    else None
  }

  /** The inventory after manejarLibros, what it wrote, and its status. */
  datatype Handled = Handled(inv: seq<Copy>, sent: Option<Write>, status: int)

  /**
   * manejarLibros: an unknown client or an unknown petition gets no reply;
   * otherwise the one reply goes to the client's descriptor.
   */
  function Handle(clients: seq<Client>, s: seq<Copy>, p: Packet, env: Env): Handled
    requires p.body.Book?
  {
    var fd := Lookup(clients, p.client);
    if fd < 0 then Handled(s, None, ErrorComunicacion)
    else
      match Apply(s, p.body.copy, env)
      case None => Handled(s, None, ErrorComunicacion)
      case Some(a) => Handled(a.inv, Some(Write(fd, Packet(p.client, a.body))), a.status)
  }

  /* ----- Properties of the requests ----- */

  /**
   * A borrow is refused, with the inventory unchanged, exactly when no record
   * of the title is available: either the title is missing or every copy is lent.
   */
  lemma BorrowRefusedIffNoneAvailable(s: seq<Copy>, req: Copy, env: Env)
    ensures Borrow(s, req, env) == Refusal(s) <==>
              forall i :: 0 <= i < |s| ==> !Meets(s[i], req, AvailableCopy)
  {
    if exists i :: 0 <= i < |s| && Meets(s[i], req, AvailableCopy) {
      var i :| 0 <= i < |s| && Meets(s[i], req, AvailableCopy);
      assert SameTitle(s[i], req);
    }
  }

  /**
   * A granted borrow lends the first available copy of the title, due a week
   * from today, changes no other record, and answers SOLICITUD with the due
   * date and the copy number.
   */
  lemma BorrowLendsFirstAvailable(s: seq<Copy>, req: Copy, env: Env, k: nat)
    requires k < |s| && Meets(s[k], req, AvailableCopy)
    requires forall j :: 0 <= j < k ==> !Meets(s[j], req, AvailableCopy)
    ensures var r := Borrow(s, req, env);
      && |r.inv| == |s|
      && r.inv[k].info == CopyInfo(s[k].info.number, Lent, env.now + WeekDays)
      && r.inv[k] == s[k].(info := r.inv[k].info)
      && (forall j :: 0 <= j < |s| && j != k ==> r.inv[j] == s[j])
      && r.body == Signal(Solicitud, DateText(env.now + WeekDays) + CopyTag(s[k].info.number))
      && r.status == Granted(env)
  {
    assert SameTitle(s[k], req);
    assert FirstIndex(s, req, AvailableCopy) == Some(k);
  }

  /**
   * A renewal on time moves the due date of the requested lent copy one week
   * later; the copy stays lent and the reply carries the new date.
   */
  lemma RenewOnTime(s: seq<Copy>, req: Copy, env: Env, k: nat)
    requires k < |s| && Meets(s[k], req, LentCopy)
    requires forall j :: 0 <= j < k ==> !Meets(s[j], req, LentCopy)
    requires !Late(s[k], env.now)
    ensures var r := Renew(s, req, env);
      && r.inv == s[k := s[k].(info := s[k].info.(date := s[k].info.date + WeekDays))]
      && r.inv[k].info.state == Lent
      && r.body == Signal(Renovacion, DateText(s[k].info.date + WeekDays))
  {
    assert SameTitle(s[k], req);
    assert FirstIndex(s, req, LentCopy) == Some(k);
  }

  /**
   * A late renewal dates the copy a week from today and flags the reply with
   * "(DEVOLUCION TARDE) ".
   */
  lemma RenewLate(s: seq<Copy>, req: Copy, env: Env, k: nat)
    requires k < |s| && Meets(s[k], req, LentCopy)
    requires forall j :: 0 <= j < k ==> !Meets(s[j], req, LentCopy)
    requires Late(s[k], env.now)
    ensures var r := Renew(s, req, env);
      && r.inv == s[k := s[k].(info := s[k].info.(date := env.now + WeekDays))]
      && r.inv[k].info.state == Lent
      && r.body == Signal(Renovacion, LateTag + DateText(env.now + WeekDays))
  {
    assert SameTitle(s[k], req);
    assert FirstIndex(s, req, LentCopy) == Some(k);
  }

  /** A renewal or a return of a copy that is not lent under that number is refused. */
  lemma RenewReturnNeedLentCopy(s: seq<Copy>, req: Copy, env: Env)
    requires forall i :: 0 <= i < |s| ==> !Meets(s[i], req, LentCopy)
    ensures Renew(s, req, env) == Refusal(s)
    ensures Return(s, req, env) == Refusal(s)
  {
  }

  /** A return makes the requested lent copy available, dated today, and answers DEVOLUCION. */
  lemma ReturnMakesAvailable(s: seq<Copy>, req: Copy, env: Env, k: nat)
    requires k < |s| && Meets(s[k], req, LentCopy)
    requires forall j :: 0 <= j < k ==> !Meets(s[j], req, LentCopy)
    ensures var r := Return(s, req, env);
      && r.inv == s[k := s[k].(info := CopyInfo(s[k].info.number, Available, env.now))]
      && r.body == Signal(Devolucion, DateText(env.now))
      && r.status == Granted(env)
  {
    assert SameTitle(s[k], req);
    assert FirstIndex(s, req, LentCopy) == Some(k);
  }

  /** A search never changes the inventory; it answers the first record of the title or ERR. */
  lemma SearchIsReadOnly(s: seq<Copy>, req: Copy, env: Env)
    ensures Search(s, req, env).inv == s
    ensures TitleExists(s, req) ==>
              (exists k :: 0 <= k < |s| && SameTitle(s[k], req) &&
                 (forall j :: 0 <= j < k ==> !SameTitle(s[j], req)) && Search(s, req, env).body == Book(s[k]))
    ensures !TitleExists(s, req) ==> Search(s, req, env) == Answer(s, Err(ErrorCode), ErrorSolicitud)
  {
    if TitleExists(s, req) {
      var i :| 0 <= i < |s| && SameTitle(s[i], req);
      assert Meets(s[i], req, AnyCopy);
    }
  }

  /** Replacing one record by one with the same title and copy number keeps the numbers unique. */
  lemma UpdateKeepsUnique(s: seq<Copy>, k: nat, c: Copy)
    requires UniqueNumbers(s) && k < |s|
    requires SameTitle(c, s[k]) && c.info.number == s[k].info.number
    ensures UniqueNumbers(s[k := c])
  {
    var t := s[k := c];
    forall i, j | 0 <= i < |t| && 0 <= j < |t| && SameTitle(t[i], t[j]) && t[i].info.number == t[j].info.number
      ensures i == j
    {
      assert SameTitle(s[i], s[j]) && s[i].info.number == s[j].info.number;
    }
  }

  /** Copy numbers and titles never change, so no request breaks UniqueNumbers. */
  lemma RequestsKeepUniqueNumbers(s: seq<Copy>, req: Copy, env: Env)
    requires UniqueNumbers(s)
    ensures UniqueNumbers(Borrow(s, req, env).inv)
    ensures UniqueNumbers(Renew(s, req, env).inv)
    ensures UniqueNumbers(Return(s, req, env).inv)
    ensures UniqueNumbers(Search(s, req, env).inv)
  {
    match FirstIndex(s, req, AvailableCopy) {
      case Some(k) => UpdateKeepsUnique(s, k, Lend(s[k], env.now));
      case None =>
    }
    match FirstIndex(s, req, LentCopy) {
      case Some(k) =>
        UpdateKeepsUnique(s, k, Prolong(s[k], env.now));
        UpdateKeepsUnique(s, k, GiveBack(s[k], env.now));
      case None =>
    }
  }

  /**
   * Borrow, then return of the same copy number: the copy lent is the one
   * returned, it is available again dated on the return day, nothing else
   * changed, and a second borrow is granted again.
   */
  lemma BorrowReturnRoundTrip(s: seq<Copy>, req: Copy, env: Env, later: Env, k: nat)
    requires UniqueNumbers(s)
    requires k < |s| && Meets(s[k], req, AvailableCopy)
    requires forall j :: 0 <= j < k ==> !Meets(s[j], req, AvailableCopy)
    ensures var back := req.(info := req.info.(number := s[k].info.number));
      var r := Return(Borrow(s, req, env).inv, back, later);
      && r.inv == s[k := s[k].(info := s[k].info.(date := later.now))]
      && r.body == Signal(Devolucion, DateText(later.now))
      && Borrow(r.inv, req, env).inv[k].info.state == Lent
  {
    var back := req.(info := req.info.(number := s[k].info.number));
    BorrowLendsFirstAvailable(s, req, env, k);
    var t := Borrow(s, req, env).inv;
    assert Meets(t[k], back, LentCopy);
    forall j | 0 <= j < k
      ensures !Meets(t[j], back, LentCopy)
    {
      assert t[j] == s[j];
      assert SameTitle(s[j], s[k]) && s[j].info.number == s[k].info.number ==> j == k;
    }
    ReturnMakesAvailable(t, back, later, k);
    var u := Return(t, back, later).inv;
    assert u == s[k := s[k].(info := s[k].info.(date := later.now))];
    assert Meets(u[k], req, AvailableCopy);
    forall j | 0 <= j < k
      ensures !Meets(u[j], req, AvailableCopy)
    {
      assert u[j] == s[j];
    }
    BorrowLendsFirstAvailable(u, req, env, k);
  }

  /** The late flag is visible: a renewal reply starts with '(' exactly when it was late. */
  lemma LateReplyIsFlagged(s: seq<Copy>, req: Copy, env: Env, k: nat)
    requires k < |s| && Meets(s[k], req, LentCopy)
    requires forall j :: 0 <= j < k ==> !Meets(s[j], req, LentCopy)
    ensures var b := Renew(s, req, env).body;
      b.Signal? && |b.text| >= 1 && (b.text[0] == '(' <==> Late(s[k], env.now))
  {
    if Late(s[k], env.now) {
      RenewLate(s, req, env, k);
    } else {
      RenewOnTime(s, req, env, k);
    }
  }

  /**
   * A registered client with a known petition gets exactly one reply, on its
   * own descriptor; an unregistered one gets none and nothing changes.
   */
  lemma OneReplyToTheRequester(clients: seq<Client>, s: seq<Copy>, p: Packet, env: Env)
    requires p.body.Book? && AllPipesNonNegative(clients)
    ensures !Registered(clients, p.client) ==>
              Handle(clients, s, p, env) == Handled(s, None, ErrorComunicacion)
    ensures Registered(clients, p.client) && Solicitar <= p.body.copy.petition <= Buscar ==>
              (exists b :: Handle(clients, s, p, env).sent == Some(Write(Lookup(clients, p.client), Packet(p.client, b))))
  {
    if Registered(clients, p.client) {
      var i := FirstPid(clients, p.client).value;
      assert Lookup(clients, p.client) == clients[i].pipe >= 0;
    }
  }

  /* ----- The scans over the inventory array ----- */

  /** The "encontrado" scan: is there any record of the title? */
  method TitleFound(ejemplar: array<Copy>, libro: Copy) returns (encontrado: bool)
    ensures encontrado == TitleExists(ejemplar[..], libro)
  {
    encontrado := false;
    for i := 0 to ejemplar.Length
      invariant encontrado <==> exists j :: 0 <= j < i && SameTitle(ejemplar[j], libro)
    {
      if SameTitle(ejemplar[i], libro) {
        encontrado := true;
      }
    }
  }

  /** A scan that stops at the first record it looks for. */
  method FindFirst(ejemplar: array<Copy>, libro: Copy, scan: Scan) returns (k: Option<nat>)
    ensures k == FirstIndex(ejemplar[..], libro, scan)
  {
    for i := 0 to ejemplar.Length
      invariant forall j :: 0 <= j < i ==> !Meets(ejemplar[j], libro, scan)
    {
      if Meets(ejemplar[i], libro, scan) {
        return Some(i);
      }
    }
    return None;
  }

  /**
   * manejarLibros: updates the inventory array in place and writes one reply,
   * as Handle describes.
   */
  method HandleBook(clients: ClientList, package: Packet, ejemplar: array<Copy>, env: Env)
    returns (status: int, sent: Option<Write>)
    requires package.body.Book? && ejemplar.Length == MaxCantLibros
    modifies ejemplar
    ensures Handled(ejemplar[..], sent, status) == Handle(clients.clientArray, old(ejemplar[..]), package, env)
  {
    var pipeCliente := clients.SearchClient(package.client);
    if pipeCliente < 0 {
      return ErrorComunicacion, None;
    }
    var libro := package.body.copy;
    var refusal := Some(Write(pipeCliente, GenerateResponse(package.client, ErrorCode, None)));
    if libro.petition == Solicitar || libro.petition == Renovar || libro.petition == Devolver {
      var encontrado := TitleFound(ejemplar, libro);
      if !encontrado {
        return ErrorSolicitud, refusal;
      }
      var scan := if libro.petition == Solicitar then AvailableCopy else LentCopy;
      var found := FindFirst(ejemplar, libro, scan);
      if found.None? {
        return ErrorSolicitud, refusal;
      }
      var i := found.value;
      var code, buffer;
      if libro.petition == Solicitar {
        ejemplar[i] := Lend(ejemplar[i], env.now);
        code, buffer := Solicitud, DateText(ejemplar[i].info.date) + CopyTag(ejemplar[i].info.number);
      } else if libro.petition == Renovar {
        var tarde := Late(ejemplar[i], env.now);
        ejemplar[i] := Prolong(ejemplar[i], env.now);
        code := Renovacion;
        buffer := if tarde then LateTag + DateText(ejemplar[i].info.date) else DateText(ejemplar[i].info.date);
      } else {
        ejemplar[i] := GiveBack(ejemplar[i], env.now);
        code, buffer := Devolucion, DateText(env.now);
      }
      sent := Some(Write(pipeCliente, GenerateResponse(package.client, code, Some(buffer))));
      status := if env.writeOk then SuccessGeneric else ErrorSolicitud;
    } else if libro.petition == Buscar {
      var found := FindFirst(ejemplar, libro, AnyCopy);
      if found.Some? {
        sent := Some(Write(pipeCliente, Packet(package.client, Book(ejemplar[found.value]))));
        status := if env.writeOk then SuccessGeneric else ErrorComunicacion;
      } else {
        sent := Some(Write(pipeCliente, Packet(package.client, Err(ErrorCode))));
        status := ErrorSolicitud;
      }
    } else {
      status, sent := ErrorComunicacion, None;
    }
  }
}
