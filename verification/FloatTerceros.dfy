/** The operator's own cash at risk: what it released to carriers before the shipper paid. */
module FloatTerceros {
  import opened Options
  import opened MandatoCobro

  /** What one trip adds to the float. */
  function Expuesto(p: Pago): real {
    if p.liberacion.estado == LiberadoPorBooster && p.cobro.estado != Cobrado then
      (if p.liberacion.montoClp.Some? then p.liberacion.montoClp.value else 0.0)
    else 0.0
  }

  function Float(pagos: seq<Pago>): real {
    if pagos == [] then 0.0 else Float(pagos[..|pagos| - 1]) + Expuesto(pagos[|pagos| - 1])
  }

  method CalcularFloat(pagos: seq<Pago>) returns (total: real)
    ensures total == Float(pagos)
  {
    total := 0.0;
    for i := 0 to |pagos|
      invariant total == Float(pagos[..i])
    {
      assert pagos[..i + 1][..i] == pagos[..i];
      var p := pagos[i];
      if p.liberacion.estado == LiberadoPorBooster && p.cobro.estado != Cobrado {
        total := total + if p.liberacion.montoClp.Some? then p.liberacion.montoClp.value else 0.0;
      }
    }
    assert pagos[..|pagos|] == pagos;
  }

  datatype Tope = Cabe | Excedido(disponibleClp: real)

  function VerificarTopeFloat(floatActualClp: real, montoClp: real, topeClp: real, cobroYaCobrado: bool): Tope {
    if cobroYaCobrado || floatActualClp + montoClp <= topeClp then Cabe
    else Excedido(if topeClp - floatActualClp > 0.0 then topeClp - floatActualClp else 0.0)
  }

  /** The amount a refusal reports is the largest that would not have been refused. */
  lemma DisponibleEsElMayor(floatActual: real, monto: real, tope: real, otro: real)
    requires floatActual <= tope && VerificarTopeFloat(floatActual, monto, tope, false).Excedido?
    ensures var disponible := VerificarTopeFloat(floatActual, monto, tope, false).disponibleClp;
            VerificarTopeFloat(floatActual, otro, tope, false).Cabe? <==> otro <= disponible
  {
  }

  /** An attempt to record an event on one of the trips, in the context of that trip. */
  datatype Intento = Intento(viaje: nat, evento: Evento, ctx: Contexto)

  /** A release by the operator also has to fit under the cap, on the trips as they are. */
  predicate Admite(tope: real, pagos: seq<Pago>, i: Intento) {
    && i.viaje < |pagos|
    && ValidarEvento(pagos[i.viaje], i.evento, i.ctx) == Ok
    && (i.evento.tipo == LiberacionBooster ==>
          var monto := if i.evento.montoClp.Some? then i.evento.montoClp.value else 0.0;
          VerificarTopeFloat(Float(pagos), monto, tope, pagos[i.viaje].cobro.estado == Cobrado) == Cabe)
  }

  function Registrar(tope: real, pagos: seq<Pago>, i: Intento): seq<Pago> {
    if Admite(tope, pagos, i) then pagos[i.viaje := AplicarEvento(pagos[i.viaje], i.evento)] else pagos
  }

  function RegistrarTodos(tope: real, pagos: seq<Pago>, intentos: seq<Intento>): seq<Pago>
    decreases |intentos|
  {
    if intentos == [] then pagos else RegistrarTodos(tope, Registrar(tope, pagos, intentos[0]), intentos[1..])
  }

  /** Payments as a log makes them: a released trip has a positive amount. */
  ghost predicate MontosPositivos(pagos: seq<Pago>) {
    forall i :: 0 <= i < |pagos| && pagos[i].liberacion.estado == LiberadoPorBooster ==>
      pagos[i].liberacion.montoClp.Some? && pagos[i].liberacion.montoClp.value > 0.0
  }

  ghost predicate BajoElTope(tope: real, pagos: seq<Pago>) {
    MontosPositivos(pagos) && 0.0 <= Float(pagos) && (Float(pagos) <= tope || Float(pagos) == 0.0)
  }

  lemma {:induction false} FloatActualizado(pagos: seq<Pago>, i: nat, p: Pago)
    requires i < |pagos|
    ensures Float(pagos[i := p]) == Float(pagos) - Expuesto(pagos[i]) + Expuesto(p)
    decreases |pagos|
  {
    var n := |pagos| - 1;
    if i == n {
      assert pagos[i := p][..n] == pagos[..n];
    } else {
      FloatActualizado(pagos[..n], i, p);
      assert pagos[i := p][..n] == pagos[..n][i := p];
    }
  }

  lemma {:induction false} FloatNoNegativo(pagos: seq<Pago>)
    requires MontosPositivos(pagos)
    ensures Float(pagos) >= 0.0
    ensures forall i :: 0 <= i < |pagos| ==> Expuesto(pagos[i]) <= Float(pagos)
    decreases |pagos|
  {
    if pagos != [] {
      FloatNoNegativo(pagos[..|pagos| - 1]);
      assert forall i :: 0 <= i < |pagos| - 1 ==> pagos[..|pagos| - 1][i] == pagos[i];
    }
  }

  lemma RegistrarBajoElTope(tope: real, pagos: seq<Pago>, i: Intento)
    requires BajoElTope(tope, pagos)
    ensures BajoElTope(tope, Registrar(tope, pagos, i))
  {
    if Admite(tope, pagos, i) {
      var p := pagos[i.viaje];
      var q := AplicarEvento(p, i.evento);
      FloatActualizado(pagos, i.viaje, q);
      FloatNoNegativo(pagos);
      FloatNoNegativo(pagos[i.viaje := q]);
    }
  }

  /**
   * Whatever is attempted on however many trips, and whatever is refused: the float is never negative, and never
   * above the cap unless it is zero.
   */
  lemma {:induction false} FloatBajoElTope(tope: real, pagos: seq<Pago>, intentos: seq<Intento>)
    requires BajoElTope(tope, pagos)
    ensures BajoElTope(tope, RegistrarTodos(tope, pagos, intentos))
    decreases |intentos|
  {
    if intentos != [] {
      RegistrarBajoElTope(tope, pagos, intentos[0]);
      FloatBajoElTope(tope, Registrar(tope, pagos, intentos[0]), intentos[1..]);
    }
  }

  /** New trips have nothing released. */
  lemma {:induction false} SinEventosSinFloat(tope: real, n: nat)
    ensures BajoElTope(tope, seq(n, _ => INICIAL)) && Float(seq(n, _ => INICIAL)) == 0.0
    decreases n
  {
    if n > 0 {
      SinEventosSinFloat(tope, n - 1);
      assert seq(n, _ => INICIAL)[..n - 1] == seq(n - 1, _ => INICIAL);
    }
  }

  /** Paying the charge of a released trip takes exactly its amount out of the float. */
  lemma CobrarLiberaFloat(pagos: seq<Pago>, i: nat, e: Evento, ctx: Contexto)
    requires i < |pagos| && ValidarEvento(pagos[i], e, ctx) == Ok && e.tipo == CobroRegistrado
    ensures Float(pagos[i := AplicarEvento(pagos[i], e)]) == Float(pagos) - Expuesto(pagos[i])
  {
    FloatActualizado(pagos, i, AplicarEvento(pagos[i], e));
  }

  // ----- The states are those of the logs -----

  /** Each payment is the replay of its trip's log. */
  ghost predicate DeLogs(pagos: seq<Pago>, logs: seq<seq<Evento>>) {
    |pagos| == |logs| && forall i :: 0 <= i < |pagos| ==> Reducir(logs[i]) == Estado(pagos[i])
  }

  /** The logs after the attempts: an event is appended when it is admitted. */
  function Anotar(tope: real, pagos: seq<Pago>, logs: seq<seq<Evento>>, intentos: seq<Intento>): seq<seq<Evento>>
    requires |pagos| == |logs|
    decreases |intentos|
  {
    if intentos == [] then logs
    else
      var i := intentos[0];
      var anotados := if Admite(tope, pagos, i) then logs[i.viaje := logs[i.viaje] + [i.evento]] else logs;
      Anotar(tope, Registrar(tope, pagos, i), anotados, intentos[1..])
  }

  lemma RegistrarDeLogs(tope: real, pagos: seq<Pago>, logs: seq<seq<Evento>>, i: Intento)
    requires DeLogs(pagos, logs) && Admite(tope, pagos, i)
    ensures DeLogs(Registrar(tope, pagos, i), logs[i.viaje := logs[i.viaje] + [i.evento]])
  {
    ReplayEsMasLaxo(pagos[i.viaje], i.evento, i.ctx);
    ReducirSnoc(logs[i.viaje], i.evento);
  }

  /** So the float checked before a release is always the one of the trips' logs. */
  lemma {:induction false} EstadosDeLosLogs(tope: real, pagos: seq<Pago>, logs: seq<seq<Evento>>, intentos: seq<Intento>)
    requires DeLogs(pagos, logs)
    ensures DeLogs(RegistrarTodos(tope, pagos, intentos), Anotar(tope, pagos, logs, intentos))
    decreases |intentos|
  {
    if intentos != [] {
      var i := intentos[0];
      if Admite(tope, pagos, i) {
        RegistrarDeLogs(tope, pagos, logs, i);
        EstadosDeLosLogs(tope, Registrar(tope, pagos, i), logs[i.viaje := logs[i.viaje] + [i.evento]], intentos[1..]);
      } else {
        EstadosDeLosLogs(tope, pagos, logs, intentos[1..]);
      }
    }
  }

  // ----- What a log has in the float -----

  /** The index of the only release of a log that replays, if there is one. */
  ghost predicate EsLaLiberacion(es: seq<Evento>, i: nat) {
    i < |es| && es[i].tipo == LiberacionBooster
  }

  lemma {:induction false} LiberadoTieneSuEvento(es: seq<Evento>) returns (i: nat)
    requires Reducir(es).Estado? && Reducir(es).pago.liberacion.estado == LiberadoPorBooster
    ensures EsLaLiberacion(es, i) && Reducir(es).pago.liberacion.montoClp == es[i].montoClp
    decreases |es|
  {
    var init, e := es[..|es| - 1], es[|es| - 1];
    if e.tipo == LiberacionBooster {
      i := |es| - 1;
    } else {
      i := LiberadoTieneSuEvento(init);
    }
  }

  /** A trip is in the float with the amount of its release exactly while it has one and no charge; otherwise with nothing. */
  lemma ExpuestoDelLog(es: seq<Evento>)
    requires Reducir(es).Estado?
    ensures var expuesto := Expuesto(Reducir(es).pago);
            if Cuenta(es, LiberacionBooster) == 1 && Cuenta(es, CobroRegistrado) == 0 then
              exists i: nat :: EsLaLiberacion(es, i) && es[i].montoClp == Some(expuesto) && expuesto > 0.0
            else expuesto == 0.0
  {
    ReproducibleEsContado(es);
    if Reducir(es).pago.liberacion.estado == LiberadoPorBooster {
      var i := LiberadoTieneSuEvento(es);
      LiberadoConMonto(es);
    }
  }

  lemma {:induction false} LiberadoConMonto(es: seq<Evento>)
    requires Reducir(es).Estado? && Reducir(es).pago.liberacion.estado == LiberadoPorBooster
    ensures Reducir(es).pago.liberacion.montoClp.Some? && Reducir(es).pago.liberacion.montoClp.value > 0.0
    decreases |es|
  {
    if es[|es| - 1].tipo != LiberacionBooster {
      LiberadoConMonto(es[..|es| - 1]);
    }
  }

  /** A release fits if the charge is paid already, whatever the cap, or up to what is left under it. */
  lemma CabeExactamente(floatActual: real, monto: real, tope: real, cobrado: bool)
    ensures VerificarTopeFloat(floatActual, monto, tope, cobrado).Cabe? <==> cobrado || monto <= tope - floatActual
    ensures VerificarTopeFloat(floatActual, monto, tope, cobrado).Excedido? ==>
              VerificarTopeFloat(floatActual, monto, tope, cobrado).disponibleClp >= 0.0
  {
  }

  /**
   * What an attempt does: the event is applied to its trip if it is valid there and, if it is a release by the operator,
   * its charge is paid or the float with its amount stays under the cap; nothing happens otherwise.
   */
  lemma RegistrarExactamente(tope: real, pagos: seq<Pago>, i: Intento)
    ensures var entra :=
              && i.viaje < |pagos| && ValidarEvento(pagos[i.viaje], i.evento, i.ctx) == Ok
              && (i.evento.tipo == LiberacionBooster ==>
                    || pagos[i.viaje].cobro.estado == Cobrado
                    || (i.evento.montoClp.Some? && Float(pagos) + i.evento.montoClp.value <= tope));
            Registrar(tope, pagos, i) == if entra then pagos[i.viaje := AplicarEvento(pagos[i.viaje], i.evento)] else pagos
  {
  }
}
