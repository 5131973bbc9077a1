/** The payment of a trip: two lines that start at the reception and advance by recorded events. */
module MandatoCobro {
  import opened Options

  datatype Tipo =
    | RecepcionConforme
    | CobroRegistrado | MoraRegistrada
    | LiberacionBooster | AnticipoOperador | DisputaAbierta | DisputaResuelta

  datatype EstadoCobro = CobroSinRecepcion | CobroPendiente | Mora | Cobrado
  datatype EstadoLiberacion = LiberacionSinRecepcion | LiberacionPendiente | Disputa | LiberadoPorBooster | AnticipadoPorOperador

  /** Dates are epoch milliseconds; an amount is any number, which the rules require to be an integer. */
  datatype Evento = Evento(tipo: Tipo, ocurridoEn: int, montoClp: Option<real>)

  datatype Linea<+E> = Linea(estado: E, en: Option<int>, montoClp: Option<real>)

  datatype Pago = Pago(recepcionConformeEn: Option<int>, cobro: Linea<EstadoCobro>, liberacion: Linea<EstadoLiberacion>)

  const INICIAL := Pago(None, Linea(CobroSinRecepcion, None, None), Linea(LiberacionSinRecepcion, None, None))

  datatype Rechazo =
    | SinRecepcionConforme | RecepcionDuplicada | FechaAnteriorARecepcion | CobroNoPendiente | MoraAntesDeVencer
    | LiberacionNoPendiente | LiberacionEnDisputa | SinDisputaAbierta | MontoInvalido

  datatype Validacion = Ok | Rechazado(code: Rechazo)

  datatype Contexto = Contexto(montoEsperadoClp: Option<real>, cobroVenceEn: Option<int>)

  predicate MontoValido(e: Evento, ctx: Contexto) {
    && e.montoClp.Some?
    && e.montoClp.value == e.montoClp.value.Floor as real
    && e.montoClp.value > 0.0
    && e.montoClp == ctx.montoEsperadoClp
  }

  function ValidarLiberacionPendiente(p: Pago): Validacion {
    if p.liberacion.estado == Disputa then Rechazado(LiberacionEnDisputa)
    else if p.liberacion.estado != LiberacionPendiente then Rechazado(LiberacionNoPendiente)
    else Ok
  }

  function ConMonto(e: Evento, ctx: Contexto): Validacion {
    if MontoValido(e, ctx) then Ok else Rechazado(MontoInvalido)
  }

  function ValidarEvento(p: Pago, e: Evento, ctx: Contexto): Validacion {
    if e.tipo == RecepcionConforme then (if p.recepcionConformeEn.Some? then Rechazado(RecepcionDuplicada) else Ok)
    else if p.recepcionConformeEn.None? then Rechazado(SinRecepcionConforme)
    else if e.ocurridoEn < p.recepcionConformeEn.value then Rechazado(FechaAnteriorARecepcion)
    else
      match e.tipo
      case CobroRegistrado =>
        if p.cobro.estado != CobroPendiente && p.cobro.estado != Mora then Rechazado(CobroNoPendiente) else ConMonto(e, ctx)
      case MoraRegistrada =>
        if p.cobro.estado != CobroPendiente then Rechazado(CobroNoPendiente)
        else if ctx.cobroVenceEn.None? || e.ocurridoEn < ctx.cobroVenceEn.value then Rechazado(MoraAntesDeVencer)
        else Ok
      case DisputaAbierta => ValidarLiberacionPendiente(p)
      case DisputaResuelta => if p.liberacion.estado == Disputa then Ok else Rechazado(SinDisputaAbierta)
      case _ => if ValidarLiberacionPendiente(p) != Ok then ValidarLiberacionPendiente(p) else ConMonto(e, ctx)
  }

  function AplicarEvento(p: Pago, e: Evento): Pago {
    var en := Some(e.ocurridoEn);
    match e.tipo
    case RecepcionConforme => Pago(en, Linea(CobroPendiente, en, None), Linea(LiberacionPendiente, en, None))
    case CobroRegistrado => p.(cobro := Linea(Cobrado, en, e.montoClp))
    case MoraRegistrada => p.(cobro := Linea(Mora, en, None))
    case LiberacionBooster => p.(liberacion := Linea(LiberadoPorBooster, en, e.montoClp))
    case AnticipoOperador => p.(liberacion := Linea(AnticipadoPorOperador, en, e.montoClp))
    case DisputaAbierta => p.(liberacion := Linea(Disputa, en, None))
    case DisputaResuelta => p.(liberacion := Linea(LiberacionPendiente, en, None))
  }

  /** `TransicionPagoInvalidaError`, or the state. */
  datatype Reduccion = Estado(pago: Pago) | Invalida(code: Rechazo, tipo: Tipo)

  /** The context a replay gives to an event: its own amount and date. */
  function ContextoDeReplay(e: Evento): Contexto {
    Contexto(e.montoClp, Some(e.ocurridoEn))
  }

  function Reducir(es: seq<Evento>): Reduccion {
    if es == [] then Estado(INICIAL)
    else
      match Reducir(es[..|es| - 1])
      case Invalida(code, tipo) => Invalida(code, tipo)
      case Estado(p) =>
        var e := es[|es| - 1];
        match ValidarEvento(p, e, ContextoDeReplay(e))
        case Rechazado(code) => Invalida(code, e.tipo)
        case Ok => Estado(AplicarEvento(p, e))
  }

  method ReducirPagoViaje(eventos: seq<Evento>) returns (r: Reduccion)
    ensures r == Reducir(eventos)
  {
    var estado := INICIAL;
    for i := 0 to |eventos|
      invariant Reducir(eventos[..i]) == Estado(estado)
    {
      assert eventos[..i + 1][..i] == eventos[..i];
      var v := ValidarEvento(estado, eventos[i], ContextoDeReplay(eventos[i]));
      if v.Rechazado? {
        PrefijoInvalido(eventos, i + 1);
        return Invalida(v.code, eventos[i].tipo);
      }
      estado := AplicarEvento(estado, eventos[i]);
    }
    assert eventos[..|eventos|] == eventos;
    r := Estado(estado);
  }

  /** A replay that throws on a prefix throws. */
  lemma {:induction false} PrefijoInvalido(es: seq<Evento>, n: nat)
    requires n <= |es| && Reducir(es[..n]).Invalida?
    ensures Reducir(es) == Reducir(es[..n])
    decreases |es|
  {
    if n == |es| {
      assert es[..n] == es;
    } else {
      assert es[..|es| - 1][..n] == es[..n];
      PrefijoInvalido(es[..|es| - 1], n);
    }
  }

  /** A replay that throws does so at its first event that is not valid, for that event's reason. */
  lemma {:induction false} PrimerFallo(es: seq<Evento>) returns (i: nat)
    requires Reducir(es).Invalida?
    ensures i < |es| && Reducir(es[..i]).Estado? && Reducir(es).tipo == es[i].tipo
    ensures ValidarEvento(Reducir(es[..i]).pago, es[i], Contexto(es[i].montoClp, Some(es[i].ocurridoEn))) == Rechazado(Reducir(es).code)
    decreases |es|
  {
    i := |es| - 1;
    if Reducir(es[..i]).Invalida? {
      var init := es[..i];
      i := PrimerFallo(init);
      assert init[..i] == es[..i];
    }
  }

  lemma ReducirSnoc(es: seq<Evento>, e: Evento)
    ensures Reducir(es + [e]) == match Reducir(es)
                                 case Invalida(code, tipo) => Invalida(code, tipo)
                                 case Estado(p) =>
                                   match ValidarEvento(p, e, ContextoDeReplay(e))
                                   case Rechazado(code) => Invalida(code, e.tipo)
                                   case Ok => Estado(AplicarEvento(p, e))
  {
    assert (es + [e])[..|es|] == es;
  }

  // ----- Admission and replay -----

  /** An event and the context in which it was admitted. */
  datatype Registro = Registro(evento: Evento, ctx: Contexto)

  function Eventos(log: seq<Registro>): (es: seq<Evento>)
    ensures |es| == |log|
  {
    if log == [] then [] else Eventos(log[..|log| - 1]) + [log[|log| - 1].evento]
  }

  /** The state after the events of a log, applied without checks. */
  function Acumulado(log: seq<Registro>): Pago {
    if log == [] then INICIAL else AplicarEvento(Acumulado(log[..|log| - 1]), log[|log| - 1].evento)
  }

  /** Each event was valid, in its context, on the state the ones before it had left. */
  ghost predicate Admitido(log: seq<Registro>) {
    log == [] || (
      var init, r := log[..|log| - 1], log[|log| - 1];
      Admitido(init) && ValidarEvento(Acumulado(init), r.evento, r.ctx) == Ok)
  }

  /** What is valid in any context is valid in the context of a replay. */
  lemma ReplayEsMasLaxo(p: Pago, e: Evento, ctx: Contexto)
    requires ValidarEvento(p, e, ctx) == Ok
    ensures ValidarEvento(p, e, ContextoDeReplay(e)) == Ok
  {
  }

  /** An admitted log replays without throwing, to the state it was admitted into. */
  lemma {:induction false} LoAdmitidoSeReproduce(log: seq<Registro>)
    requires Admitido(log)
    ensures Reducir(Eventos(log)) == Estado(Acumulado(log))
    decreases |log|
  {
    if log != [] {
      var init, r := log[..|log| - 1], log[|log| - 1];
      LoAdmitidoSeReproduce(init);
      ReplayEsMasLaxo(Acumulado(init), r.evento, r.ctx);
      ReducirSnoc(Eventos(init), r.evento);
    }
  }

  /** And a log that replays could have been admitted: the two accept the same sequences of events. */
  lemma {:induction false} LoReproducibleEsAdmisible(es: seq<Evento>) returns (log: seq<Registro>)
    requires Reducir(es).Estado?
    ensures Admitido(log) && Eventos(log) == es && Reducir(es) == Estado(Acumulado(log))
    decreases |es|
  {
    if es == [] {
      log := [];
    } else {
      var init, e := es[..|es| - 1], es[|es| - 1];
      var before := LoReproducibleEsAdmisible(init);
      log := before + [Registro(e, ContextoDeReplay(e))];
      assert log[..|log| - 1] == before;
    }
  }

  // ----- The two lines do not interfere -----

  predicate EsDeCobro(t: Tipo) {
    t.RecepcionConforme? || t.CobroRegistrado? || t.MoraRegistrada?
  }

  predicate EsDeLiberacion(t: Tipo) {
    t.RecepcionConforme? || !EsDeCobro(t)
  }

  function Cobros(es: seq<Evento>): seq<Evento> {
    if es == [] then []
    else Cobros(es[..|es| - 1]) + (if EsDeCobro(es[|es| - 1].tipo) then [es[|es| - 1]] else [])
  }

  function Liberaciones(es: seq<Evento>): seq<Evento> {
    if es == [] then []
    else Liberaciones(es[..|es| - 1]) + (if EsDeLiberacion(es[|es| - 1].tipo) then [es[|es| - 1]] else [])
  }

  /** A line of a payment, with the reception it starts at. */
  ghost predicate MismoCobro(p: Pago, q: Pago) {
    p.recepcionConformeEn == q.recepcionConformeEn && p.cobro == q.cobro
  }

  ghost predicate MismaLiberacion(p: Pago, q: Pago) {
    p.recepcionConformeEn == q.recepcionConformeEn && p.liberacion == q.liberacion
  }

  ghost predicate Factorizado(es: seq<Evento>) {
    var todo, cobro, liberacion := Reducir(es), Reducir(Cobros(es)), Reducir(Liberaciones(es));
    && (todo.Estado? <==> cobro.Estado? && liberacion.Estado?)
    && (todo.Estado? ==> MismoCobro(todo.pago, cobro.pago) && MismaLiberacion(todo.pago, liberacion.pago))
  }

  lemma Localidad(p: Pago, q: Pago, e: Evento)
    ensures MismoCobro(p, q) && EsDeCobro(e.tipo) ==>
              && ValidarEvento(p, e, ContextoDeReplay(e)) == ValidarEvento(q, e, ContextoDeReplay(e))
              && MismoCobro(AplicarEvento(p, e), AplicarEvento(q, e))
    ensures MismaLiberacion(p, q) && EsDeLiberacion(e.tipo) ==>
              && ValidarEvento(p, e, ContextoDeReplay(e)) == ValidarEvento(q, e, ContextoDeReplay(e))
              && MismaLiberacion(AplicarEvento(p, e), AplicarEvento(q, e))
    ensures !EsDeCobro(e.tipo) ==> MismoCobro(AplicarEvento(p, e), p)
    ensures !EsDeLiberacion(e.tipo) ==> MismaLiberacion(AplicarEvento(p, e), p)
  {
  }

  lemma FactorizadoSnoc(es: seq<Evento>, e: Evento)
    requires Factorizado(es)
    ensures Factorizado(es + [e])
  {
    var todo, cobro, liberacion := Reducir(es), Reducir(Cobros(es)), Reducir(Liberaciones(es));
    assert (es + [e])[..|es|] == es;
    ReducirSnoc(es, e);
    ReducirSnoc(Cobros(es), e);
    ReducirSnoc(Liberaciones(es), e);
    assert Cobros(es) + [] == Cobros(es) && Liberaciones(es) + [] == Liberaciones(es);
    if todo.Estado? {
      Localidad(todo.pago, cobro.pago, e);
      Localidad(todo.pago, liberacion.pago, e);
    }
  }

  /**
   * A log replays if and only if its charge events and its release events replay on their own, each with the
   * reception; and then each line is what its own events make it, so disputes never reach the charge.
   */
  lemma {:induction false} LineasIndependientes(es: seq<Evento>)
    ensures Factorizado(es)
    decreases |es|
  {
    if es != [] {
      LineasIndependientes(es[..|es| - 1]);
      FactorizadoSnoc(es[..|es| - 1], es[|es| - 1]);
      assert es[..|es| - 1] + [es[|es| - 1]] == es;
    }
  }

  // ----- What a log that replays contains -----

  function Cuenta(es: seq<Evento>, t: Tipo): nat {
    if es == [] then 0 else Cuenta(es[..|es| - 1], t) + (if es[|es| - 1].tipo == t then 1 else 0)
  }

  /** The state says how many events of each kind there were. */
  ghost predicate Contado(es: seq<Evento>, p: Pago) {
    && Cuenta(es, RecepcionConforme) == (if p.recepcionConformeEn.Some? then 1 else 0)
    && Cuenta(es, CobroRegistrado) == (if p.cobro.estado == Cobrado then 1 else 0)
    && (p.cobro.estado == Mora ==> Cuenta(es, MoraRegistrada) == 1)
    && (p.cobro.estado == Cobrado ==> Cuenta(es, MoraRegistrada) <= 1)
    && (p.cobro.estado in {CobroSinRecepcion, CobroPendiente} ==> Cuenta(es, MoraRegistrada) == 0)
    && Cuenta(es, LiberacionBooster) == (if p.liberacion.estado == LiberadoPorBooster then 1 else 0)
    && Cuenta(es, AnticipoOperador) == (if p.liberacion.estado == AnticipadoPorOperador then 1 else 0)
    && Cuenta(es, DisputaAbierta) == Cuenta(es, DisputaResuelta) + (if p.liberacion.estado == Disputa then 1 else 0)
    && (p.recepcionConformeEn.None? <==> p.cobro.estado == CobroSinRecepcion)
    && (p.recepcionConformeEn.None? <==> p.liberacion.estado == LiberacionSinRecepcion)
  }

  lemma CuentaSnoc(es: seq<Evento>, e: Evento, t: Tipo)
    ensures Cuenta(es + [e], t) == Cuenta(es, t) + (if e.tipo == t then 1 else 0)
  {
    assert (es + [e])[..|es|] == es;
  }

  lemma ContadoSnoc(es: seq<Evento>, p: Pago, e: Evento, ctx: Contexto)
    requires Contado(es, p) && ValidarEvento(p, e, ctx) == Ok
    ensures Contado(es + [e], AplicarEvento(p, e))
  {
    CuentaSnoc(es, e, RecepcionConforme);
    CuentaSnoc(es, e, CobroRegistrado);
    CuentaSnoc(es, e, MoraRegistrada);
    CuentaSnoc(es, e, LiberacionBooster);
    CuentaSnoc(es, e, AnticipoOperador);
    CuentaSnoc(es, e, DisputaAbierta);
    CuentaSnoc(es, e, DisputaResuelta);
  }

  lemma {:induction false} ReproducibleEsContado(es: seq<Evento>)
    requires Reducir(es).Estado?
    ensures Contado(es, Reducir(es).pago)
    decreases |es|
  {
    if es != [] {
      var init, e := es[..|es| - 1], es[|es| - 1];
      assert es == init + [e];
      ReproducibleEsContado(init);
      var p := Reducir(init).pago;
      ContadoSnoc(init, p, e, ContextoDeReplay(e));
      assert Reducir(es).pago == AplicarEvento(p, e);
    }
  }

  /** No log that replays pays twice: one reception, charge and mora at most, and one release or advance. */
  lemma NadaDosVeces(es: seq<Evento>)
    requires Reducir(es).Estado?
    ensures Cuenta(es, RecepcionConforme) <= 1 && Cuenta(es, CobroRegistrado) <= 1 && Cuenta(es, MoraRegistrada) <= 1
    ensures Cuenta(es, LiberacionBooster) + Cuenta(es, AnticipoOperador) <= 1
  {
    ReproducibleEsContado(es);
  }

  // ----- What a line shows -----

  /** What a line shows is its last event: its state, when it happened, and its amount if it moved money. */
  ghost predicate CobroRefleja(p: Pago, e: Evento) {
    && p.cobro.en == Some(e.ocurridoEn)
    && p.cobro.montoClp == (if e.tipo.CobroRegistrado? then e.montoClp else None)
    && p.cobro.estado == (if e.tipo.CobroRegistrado? then Cobrado else if e.tipo.MoraRegistrada? then Mora else CobroPendiente)
  }

  ghost predicate LiberacionRefleja(p: Pago, e: Evento) {
    && p.liberacion.en == Some(e.ocurridoEn)
    && p.liberacion.montoClp == (if e.tipo.LiberacionBooster? || e.tipo.AnticipoOperador? then e.montoClp else None)
    && p.liberacion.estado == (if e.tipo.LiberacionBooster? then LiberadoPorBooster
                               else if e.tipo.AnticipoOperador? then AnticipadoPorOperador
                               else if e.tipo.DisputaAbierta? then Disputa else LiberacionPendiente)
  }

  ghost predicate Refleja(es: seq<Evento>, p: Pago) {
    var cs, ls := Cobros(es), Liberaciones(es);
    && (if cs == [] then p.cobro == INICIAL.cobro else CobroRefleja(p, cs[|cs| - 1]))
    && (if ls == [] then p.liberacion == INICIAL.liberacion else LiberacionRefleja(p, ls[|ls| - 1]))
    && (p.recepcionConformeEn.Some? ==> cs != [] && ls != [] && cs[0] == ls[0] && cs[0].tipo.RecepcionConforme?
                                        && p.recepcionConformeEn == Some(cs[0].ocurridoEn))
    && (p.recepcionConformeEn.None? ==> es == [])
  }

  /**
   * After any log that replays: each line shows the last event of its own, and the reception is the first event of
   * both.
   */
  lemma {:induction false} LasLineasReflejanSuUltimoEvento(es: seq<Evento>)
    requires Reducir(es).Estado?
    ensures Refleja(es, Reducir(es).pago)
    decreases |es|
  {
    if es != [] {
      LasLineasReflejanSuUltimoEvento(es[..|es| - 1]);
    }
  }

  // ----- Due dates -----

  const DIA_MS := 86_400_000

  datatype Plazos = Plazos(pagoGeneradorDias: int, liberacionTransportistaDias: int)

  function CobroVenceEn(recepcion: int, plazos: Plazos): int {
    recepcion + plazos.pagoGeneradorDias * DIA_MS
  }

  function LiberacionVenceEn(recepcion: int, plazos: Plazos): int {
    recepcion + plazos.liberacionTransportistaDias * DIA_MS
  }

  datatype Revision = Revision(requiereMora: bool, liberacionVencida: bool)

  function RevisarVencimientos(p: Pago, plazos: Plazos, ahora: int): Revision {
    if p.recepcionConformeEn.None? then Revision(false, false)
    else
      Revision(p.cobro.estado == CobroPendiente && ahora >= CobroVenceEn(p.recepcionConformeEn.value, plazos),
               p.liberacion.estado == LiberacionPendiente && ahora > LiberacionVenceEn(p.recepcionConformeEn.value, plazos))
  }

  /** The mora the daily job would record. */
  predicate MoraValida(p: Pago, plazos: Plazos, ahora: int) {
    var vence := if p.recepcionConformeEn.Some? then Some(CobroVenceEn(p.recepcionConformeEn.value, plazos)) else None;
    ValidarEvento(p, Evento(MoraRegistrada, ahora, None), Contexto(None, vence)) == Ok
  }

  /**
   * The job asks for a mora exactly when recording it would be accepted, at every moment, if and only if no
   * charge is pending or the term is not negative.
   */
  lemma MoraSiYSoloSiValida(p: Pago, plazos: Plazos)
    ensures (forall ahora :: RevisarVencimientos(p, plazos, ahora).requiereMora <==> MoraValida(p, plazos, ahora))
       <==> p.recepcionConformeEn.None? || p.cobro.estado != CobroPendiente || plazos.pagoGeneradorDias >= 0
  {
    if p.recepcionConformeEn.Some? && p.cobro.estado == CobroPendiente && plazos.pagoGeneradorDias < 0 {
      var vence := CobroVenceEn(p.recepcionConformeEn.value, plazos);
      assert RevisarVencimientos(p, plazos, vence).requiereMora && !MoraValida(p, plazos, vence);
    } else {
      forall ahora
        ensures RevisarVencimientos(p, plazos, ahora).requiereMora <==> MoraValida(p, plazos, ahora)
      {
      }
    }
  }

  /** Once a mora is on record the job never asks for one again, whatever happens later. */
  lemma MoraUnaSolaVez(es: seq<Evento>, plazos: Plazos, ahora: int)
    requires Reducir(es).Estado? && Cuenta(es, MoraRegistrada) > 0
    ensures !RevisarVencimientos(Reducir(es).pago, plazos, ahora).requiereMora
  {
    ReproducibleEsContado(es);
  }

  /** The job's two answers, in milliseconds: the mora from its due moment on, the release after it. */
  lemma VencimientosExactos(p: Pago, plazos: Plazos, ahora: int)
    ensures var r := RevisarVencimientos(p, plazos, ahora);
            && (r.requiereMora <==>
                  && p.cobro.estado == CobroPendiente && p.recepcionConformeEn.Some?
                  && ahora - p.recepcionConformeEn.value >= plazos.pagoGeneradorDias * 24 * 60 * 60 * 1000)
            && (r.liberacionVencida <==>
                  && p.liberacion.estado == LiberacionPendiente && p.recepcionConformeEn.Some?
                  && ahora - p.recepcionConformeEn.value > plazos.liberacionTransportistaDias * 24 * 60 * 60 * 1000)
  {
  }

  // ----- What is refused, and why -----

  predicate MueveDinero(t: Tipo) {
    t.CobroRegistrado? || t.LiberacionBooster? || t.AnticipoOperador?
  }

  /** The amount is the expected one, a positive integer. */
  predicate MontoExacto(e: Evento, ctx: Contexto) {
    match (e.montoClp, ctx.montoEsperadoClp)
    case (Some(monto), Some(esperado)) => monto == esperado && monto > 0.0 && monto == monto.Floor as real
    case _ => false
  }

  /** The reception is on record and the event is not before it. */
  predicate EnFecha(p: Pago, e: Evento) {
    !e.tipo.RecepcionConforme? && p.recepcionConformeEn.Some? && e.ocurridoEn >= p.recepcionConformeEn.value
  }

  /** The line an event of money is for waits for it. */
  predicate LineaEspera(p: Pago, e: Evento) {
    match e.tipo
    case CobroRegistrado => p.cobro.estado == CobroPendiente || p.cobro.estado == Mora
    case LiberacionBooster => p.liberacion.estado == LiberacionPendiente
    case AnticipoOperador => p.liberacion.estado == LiberacionPendiente
    case _ => false
  }

  /** Where state and date allow money to move, the amount decides: the expected one is accepted, any other refused. */
  lemma ElMontoDecide(p: Pago, e: Evento, ctx: Contexto)
    requires EnFecha(p, e) && LineaEspera(p, e)
    ensures ValidarEvento(p, e, ctx) == if MontoExacto(e, ctx) then Ok else Rechazado(MontoInvalido)
  {
  }

  /** Every movement of money on an admitted log is of exactly the amount its context expected. */
  lemma {:induction false} MontosExactos(log: seq<Registro>, i: nat)
    requires Admitido(log) && i < |log| && MueveDinero(log[i].evento.tipo)
    ensures MontoExacto(log[i].evento, log[i].ctx)
    decreases |log|
  {
    if i < |log| - 1 {
      MontosExactos(log[..|log| - 1], i);
    }
  }

  /** Each refusal has its cause, and each cause its refusal. */
  lemma CadaRechazoTieneSuCausa(p: Pago, e: Evento, ctx: Contexto)
    ensures var v, t := ValidarEvento(p, e, ctx), e.tipo;
            && (v == Rechazado(RecepcionDuplicada) <==> t.RecepcionConforme? && p.recepcionConformeEn.Some?)
            && (v == Rechazado(SinRecepcionConforme) <==> !t.RecepcionConforme? && p.recepcionConformeEn.None?)
            && (v == Rechazado(FechaAnteriorARecepcion) <==>
                  !t.RecepcionConforme? && p.recepcionConformeEn.Some? && e.ocurridoEn < p.recepcionConformeEn.value)
            && (v == Rechazado(CobroNoPendiente) <==>
                  EnFecha(p, e) && ((t.CobroRegistrado? && !LineaEspera(p, e)) || (t.MoraRegistrada? && p.cobro.estado != CobroPendiente)))
            && (v == Rechazado(MoraAntesDeVencer) <==>
                  && EnFecha(p, e) && t.MoraRegistrada? && p.cobro.estado == CobroPendiente
                  && (ctx.cobroVenceEn.Some? ==> e.ocurridoEn < ctx.cobroVenceEn.value))
            && (v == Rechazado(LiberacionEnDisputa) <==>
                  EnFecha(p, e) && PideLiberacion(t) && p.liberacion.estado == Disputa)
            && (v == Rechazado(LiberacionNoPendiente) <==>
                  EnFecha(p, e) && PideLiberacion(t) && p.liberacion.estado !in {Disputa, LiberacionPendiente})
            && (v == Rechazado(SinDisputaAbierta) <==> EnFecha(p, e) && t.DisputaResuelta? && p.liberacion.estado != Disputa)
            && (v == Rechazado(MontoInvalido) <==> EnFecha(p, e) && LineaEspera(p, e) && !MontoExacto(e, ctx))
  {
  }

  predicate PideLiberacion(t: Tipo) {
    t.LiberacionBooster? || t.AnticipoOperador? || t.DisputaAbierta?
  }
}
