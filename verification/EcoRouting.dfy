/** Which alternative route to recommend when there is congestion: emissions first, then time. */
module EcoRouting {
  import opened Options

  datatype Ruta = Ruta(duracionSegundos: real, distanciaKm: real, combustibleL: Option<real>)

  datatype Motivo = Emisiones | Tiempo

  /** `liquido` says whether the fuel is measured in litres, and `factorWtw` what one of them emits. */
  datatype Entrada = Entrada(
    actual: Ruta, alternativas: seq<Ruta>, liquido: bool, factorWtw: real, consumoBaseLPor100km: Option<real>,
    guardrailEtaPct: real, mejoraMinimaPct: real)

  datatype Resultado =
    | SinAlternativas
    | SinMejoraMaterial
    | Recomendada(motivo: Motivo, indice: nat, ahorroSegundos: real, kgco2eActual: Option<real>,
                  kgco2eAlternativa: Option<real>, ahorroKgco2e: Option<real>)

  function Kgco2e(r: Ruta, e: Entrada): Option<real> {
    if !e.liquido then None
    else
      var litros :=
        if r.combustibleL.Some? then r.combustibleL
        else if e.consumoBaseLPor100km.None? then None
        else Some(r.distanciaKm * e.consumoBaseLPor100km.value / 100.0);
      if litros.None? then None else Some(litros.value * e.factorWtw)
  }

  /** `x / y > m` as JavaScript computes it: over zero a positive number is infinite, and 0 / 0 is not a number. */
  predicate ShareExceeds(x: real, y: real, m: real) {
    if y == 0.0 then x > 0.0 else x / y > m
  }

  function EtaMax(e: Entrada): real {
    e.actual.duracionSegundos * (1.0 + e.guardrailEtaPct)
  }

  predicate MejoraTiempo(r: Ruta, e: Entrada) {
    ShareExceeds(e.actual.duracionSegundos - r.duracionSegundos, e.actual.duracionSegundos, e.mejoraMinimaPct)
  }

  /** Why a route qualifies, if it does. */
  function MotivoDe(r: Ruta, e: Entrada): Option<Motivo> {
    var actual, co2 := Kgco2e(e.actual, e), Kgco2e(r, e);
    if actual.Some? && co2.Some? then
      if co2.value > actual.value then None
      else if ShareExceeds(actual.value - co2.value, actual.value, e.mejoraMinimaPct) && r.duracionSegundos <= EtaMax(e) then Some(Emisiones)
      else if MejoraTiempo(r, e) then Some(Tiempo)
      else None
    else if MejoraTiempo(r, e) then Some(Tiempo)
    else None
  }

  predicate Califica(e: Entrada, i: nat)
    requires i < |e.alternativas|
  {
    MotivoDe(e.alternativas[i], e).Some?
  }

  /** The reference order: a route on emissions before one on time, then the lower emissions or the shorter time. */
  predicate MejorQue(e: Entrada, i: nat, j: nat)
    requires i < |e.alternativas| && j < |e.alternativas| && Califica(e, i) && Califica(e, j)
  {
    var (r, s) := (e.alternativas[i], e.alternativas[j]);
    match (MotivoDe(r, e).value, MotivoDe(s, e).value)
    case (Emisiones, Tiempo) => true
    case (Tiempo, Emisiones) => false
    case (Emisiones, Emisiones) => Kgco2e(r, e).value < Kgco2e(s, e).value
    case (Tiempo, Tiempo) => r.duracionSegundos < s.duracionSegundos
  }

  /** The first of the best among the first `n` alternatives. */
  ghost predicate PrimeraMejor(e: Entrada, k: nat, n: nat) {
    && k < n <= |e.alternativas| && Califica(e, k)
    && (forall j: nat :: j < n && Califica(e, j) ==> !MejorQue(e, j, k))
    && (forall j: nat :: j < k && Califica(e, j) ==> MejorQue(e, k, j))
  }

  method EvaluarAlternativas(e: Entrada) returns (r: Resultado)
    ensures r.SinAlternativas? <==> e.alternativas == []
    ensures r.SinMejoraMaterial? <==> e.alternativas != [] && forall i: nat :: i < |e.alternativas| ==> !Califica(e, i)
    ensures r.Recomendada? ==> PrimeraMejor(e, r.indice, |e.alternativas|)
    ensures r.Recomendada? ==>
      var ruta := e.alternativas[r.indice];
      && Some(r.motivo) == MotivoDe(ruta, e)
      && r.ahorroSegundos == e.actual.duracionSegundos - ruta.duracionSegundos
      && r.kgco2eActual == Kgco2e(e.actual, e) && r.kgco2eAlternativa == Kgco2e(ruta, e)
      && r.ahorroKgco2e == (if r.kgco2eActual.Some? && r.kgco2eAlternativa.Some?
                            then Some(r.kgco2eActual.value - r.kgco2eAlternativa.value) else None)
  {
    if |e.alternativas| == 0 {
      return SinAlternativas;
    }
    var actual := e.actual;
    var etaMax := actual.duracionSegundos * (1.0 + e.guardrailEtaPct);
    var co2Actual := Kgco2e(actual, e);
    var mejor: Option<(nat, Option<real>, Motivo)> := None;
    for i := 0 to |e.alternativas|
      invariant mejor.None? ==> forall j: nat :: j < i ==> !Califica(e, j)
      invariant mejor.Some? ==>
        var (k, co2, motivo) := mejor.value;
        PrimeraMejor(e, k, i) && co2 == Kgco2e(e.alternativas[k], e) && Some(motivo) == MotivoDe(e.alternativas[k], e)
    {
      var ruta := e.alternativas[i];
      var co2 := Kgco2e(ruta, e);
      var mejoraTiempo := ShareExceeds(actual.duracionSegundos - ruta.duracionSegundos, actual.duracionSegundos, e.mejoraMinimaPct);
      var motivo: Option<Motivo> := None;
      if co2Actual.Some? && co2.Some? {
        if co2.value > co2Actual.value {
          continue;
        }
        var mejoraCo2 := ShareExceeds(co2Actual.value - co2.value, co2Actual.value, e.mejoraMinimaPct);
        if mejoraCo2 && ruta.duracionSegundos <= etaMax {
          motivo := Some(Emisiones);
        } else if mejoraTiempo {
          motivo := Some(Tiempo);
        }
      } else if mejoraTiempo {
        motivo := Some(Tiempo);
      }
      assert motivo == MotivoDe(ruta, e);
      if motivo.None? {
        continue;
      }
      var esMejor :=
        || mejor.None?
        || (motivo.value == Emisiones && mejor.value.2 == Tiempo)
        || (motivo.value == mejor.value.2 &&
            if motivo.value == Emisiones then co2.value < mejor.value.1.value
            else ruta.duracionSegundos < e.alternativas[mejor.value.0].duracionSegundos);
      assert mejor.Some? ==> (esMejor <==> MejorQue(e, i, mejor.value.0));
      if esMejor {
        if mejor.Some? {
          BetterThanBest(e, i, mejor.value.0);
        }
        mejor := Some((i, co2, motivo.value));
      }
    }
    if mejor.None? {
      return SinMejoraMaterial;
    }
    var (k, co2, motivo) := mejor.value;
    r := Recomendada(motivo, k, actual.duracionSegundos - e.alternativas[k].duracionSegundos, co2Actual, co2,
                     if co2Actual.Some? && co2.Some? then Some(co2Actual.value - co2.value) else None);
  }

  /** A route better than the best so far is better than all of them. */
  lemma BetterThanBest(e: Entrada, i: nat, k: nat)
    requires PrimeraMejor(e, k, i) && i < |e.alternativas| && Califica(e, i) && MejorQue(e, i, k)
    ensures PrimeraMejor(e, i, i + 1)
  {
  }

  // ----- The recommendation in numbers -----

  /** What a route emits, for a fuel in litres: its own litres if they are known, or those of its distance. */
  ghost predicate Emite(r: Ruta, e: Entrada, kg: real) {
    && e.liquido
    && (r.combustibleL.Some? ==> kg == r.combustibleL.value * e.factorWtw)
    && (r.combustibleL.None? ==>
          && e.consumoBaseLPor100km.Some?
          && kg * 100.0 == r.distanciaKm * e.consumoBaseLPor100km.value * e.factorWtw)
  }

  lemma Kgco2eEnNumeros(r: Ruta, e: Entrada)
    ensures Kgco2e(r, e).Some? <==> e.liquido && (r.combustibleL.Some? || e.consumoBaseLPor100km.Some?)
    ensures Kgco2e(r, e).Some? ==> Emite(r, e, Kgco2e(r, e).value)
  {
    if e.liquido && r.combustibleL.None? && e.consumoBaseLPor100km.Some? {
      var litros := r.distanciaKm * e.consumoBaseLPor100km.value / 100.0;
      assert litros * 100.0 == r.distanciaKm * e.consumoBaseLPor100km.value;
      Reorder(litros, e.factorWtw);
    }
  }

  lemma Reorder(x: real, y: real)
    ensures x * y * 100.0 == x * 100.0 * y
  {
  }

  /** A saving of more than its share `m` of `y`; a share of a negative number is passed from the other side. */
  predicate MoreThanShare(x: real, y: real, m: real) {
    if y >= 0.0 then x > m * y else x < m * y
  }

  lemma ShareInNumbers(x: real, y: real, m: real)
    ensures ShareExceeds(x, y, m) <==> MoreThanShare(x, y, m)
  {
    if y != 0.0 {
      var q := x / y;
      assert q * y == x;
      if q > m {
        Times(q - m, y);
        assert (q - m) * y == x - m * y;
      } else if q < m {
        Times(m - q, y);
        assert (m - q) * y == m * y - x;
      }
    }
  }

  lemma Times(d: real, y: real)
    requires d > 0.0
    ensures y > 0.0 ==> d * y > 0.0
    ensures y < 0.0 ==> d * y < 0.0
  {
    if y < 0.0 {
      assert d * (-y) > 0.0;
    }
  }

  /** It saves its share of the time. */
  predicate AhorraTiempo(r: Ruta, e: Entrada) {
    MoreThanShare(e.actual.duracionSegundos - r.duracionSegundos, e.actual.duracionSegundos, e.mejoraMinimaPct)
  }

  /** It saves its share of the emissions, and arrives within the guardrail. */
  predicate AhorraEmisiones(r: Ruta, e: Entrada, actual: real, co2: real) {
    && MoreThanShare(actual - co2, actual, e.mejoraMinimaPct)
    && r.duracionSegundos <= e.actual.duracionSegundos * (1.0 + e.guardrailEtaPct)
  }

  /**
   * A route qualifies on emissions if both are known, it emits no more, and it saves its share of them in time; on time
   * if it does not qualify on emissions, is not known to emit more, and saves its share of the time.
   */
  lemma MotivoEnNumeros(r: Ruta, e: Entrada)
    ensures var (a, b) := (Kgco2e(e.actual, e), Kgco2e(r, e));
            var known := a.Some? && b.Some?;
            var emisiones := known && b.value <= a.value && AhorraEmisiones(r, e, a.value, b.value);
            && (MotivoDe(r, e) == Some(Emisiones) <==> emisiones)
            && (MotivoDe(r, e) == Some(Tiempo) <==> !emisiones && AhorraTiempo(r, e) && (known ==> b.value <= a.value))
  {
    var (a, b) := (Kgco2e(e.actual, e), Kgco2e(r, e));
    ShareInNumbers(e.actual.duracionSegundos - r.duracionSegundos, e.actual.duracionSegundos, e.mejoraMinimaPct);
    if a.Some? && b.Some? {
      ShareInNumbers(a.value - b.value, a.value, e.mejoraMinimaPct);
    }
  }

  /** Between two routes that qualify: emissions go before time, then less of it, and then the one offered first. */
  ghost predicate VaAntes(e: Entrada, k: nat, j: nat)
    requires k < |e.alternativas| && j < |e.alternativas| && Califica(e, k) && Califica(e, j)
  {
    var (r, s) := (e.alternativas[k], e.alternativas[j]);
    if MotivoDe(r, e) != MotivoDe(s, e) then MotivoDe(r, e) == Some(Emisiones)
    else
      var (x, y) := if MotivoDe(r, e) == Some(Emisiones) then (Kgco2e(r, e).value, Kgco2e(s, e).value)
                    else (r.duracionSegundos, s.duracionSegundos);
      x < y || (x == y && k <= j)
  }

  /** The route recommended is the one that qualifies and goes before all the others that do. */
  lemma RecommendedGoesFirst(e: Entrada, k: nat)
    requires k < |e.alternativas| && Califica(e, k)
    ensures PrimeraMejor(e, k, |e.alternativas|) <==> forall j: nat :: j < |e.alternativas| && Califica(e, j) ==> VaAntes(e, k, j)
  {
  }

  /** Whenever some route qualifies on emissions, so does the one recommended, and none emits less. */
  lemma EmissionsFirst(e: Entrada, k: nat, j: nat)
    requires PrimeraMejor(e, k, |e.alternativas|) && j < |e.alternativas| && MotivoDe(e.alternativas[j], e) == Some(Emisiones)
    ensures MotivoDe(e.alternativas[k], e) == Some(Emisiones)
    ensures Kgco2e(e.alternativas[k], e).value <= Kgco2e(e.alternativas[j], e).value
  {
    assert Califica(e, j) && !MejorQue(e, j, k);
  }

  /** A route that qualifies never emits more than the current one, when both are known. */
  lemma NeverEmitsMore(e: Entrada, k: nat)
    requires k < |e.alternativas| && Califica(e, k)
    ensures var actual, co2 := Kgco2e(e.actual, e), Kgco2e(e.alternativas[k], e);
            actual.Some? && co2.Some? ==> co2.value <= actual.value
  {
  }

  // ----- The arrival guardrail -----

  /** Every route that could be offered and qualifies arrives within the guardrail. */
  ghost predicate GuardrailEnforced(e: Entrada) {
    forall r: Ruta :: r.duracionSegundos >= 0.0 && MotivoDe(r, e).Some? ==> r.duracionSegundos <= EtaMax(e)
  }

  /** A route qualifies on time if it saves more than its share, with or without a duration to take it of. */
  lemma SavesItsShare(r: real, d: real, m: real)
    requires d > 0.0
    ensures ShareExceeds(d - r, d, m) <==> r < d * (1.0 - m)
  {
    var q := (d - r) / d;
    assert q * d == d - r;
    if q > m {
      assert (q - m) * d > 0.0;
    } else {
      assert (m - q) * d >= 0.0;
    }
  }

  /** A route on time is neither always within the guardrail nor always refused. */
  predicate CanBeLate(e: Entrada) {
    e.actual.duracionSegundos > 0.0 && e.guardrailEtaPct + e.mejoraMinimaPct < 0.0 && e.mejoraMinimaPct < 1.0
  }

  /** Half-way between the guardrail, or no time at all, and what qualifies, as a share of the current duration. */
  function LateShare(e: Entrada): real {
    ((if e.guardrailEtaPct > -1.0 then 1.0 + e.guardrailEtaPct else 0.0) + (1.0 - e.mejoraMinimaPct)) / 2.0
  }

  /** A route as good as the current one, but for its duration. */
  function LateRoute(e: Entrada): Ruta {
    e.actual.(duracionSegundos := e.actual.duracionSegundos * LateShare(e))
  }

  lemma LateRouteQualifies(e: Entrada)
    requires CanBeLate(e)
    ensures MotivoDe(LateRoute(e), e) == Some(Tiempo) && LateRoute(e).duracionSegundos > EtaMax(e)
    ensures LateRoute(e).duracionSegundos > 0.0
  {
    var d, g, m := e.actual.duracionSegundos, e.guardrailEtaPct, e.mejoraMinimaPct;
    Between(d, 0.0, LateShare(e));
    Between(d, 1.0 + g, LateShare(e));
    Between(d, LateShare(e), 1.0 - m);
    SavesItsShare(LateRoute(e).duracionSegundos, d, m);
  }

  lemma Between(d: real, x: real, y: real)
    requires d > 0.0 && x < y
    ensures d * x < d * y
  {
  }

  /**
   * The guardrail is checked for routes on emissions only. It holds for routes on time too, whatever is offered, if
   * and only if the two margins add up to nothing negative, or no route can be on time: the improvement asked for is
   * the whole duration, or there is no current duration to take it of.
   */
  lemma GuardrailIff(e: Entrada)
    requires e.actual.duracionSegundos >= 0.0
    ensures GuardrailEnforced(e)
       <==> || e.guardrailEtaPct + e.mejoraMinimaPct >= 0.0
            || e.mejoraMinimaPct >= 1.0 || e.actual.duracionSegundos == 0.0
  {
    if CanBeLate(e) {
      LateRouteQualifies(e);
    } else {
      forall r: Ruta | r.duracionSegundos >= 0.0 && MotivoDe(r, e).Some?
        ensures r.duracionSegundos <= EtaMax(e)
      {
        QualifiesWithin(r, e);
      }
    }
  }

  lemma QualifiesWithin(r: Ruta, e: Entrada)
    requires e.actual.duracionSegundos >= 0.0 && !CanBeLate(e) && MotivoDe(r, e).Some?
    requires r.duracionSegundos >= 0.0 || e.guardrailEtaPct + e.mejoraMinimaPct >= 0.0
    ensures r.duracionSegundos <= EtaMax(e)
  {
    var d, g, m := e.actual.duracionSegundos, e.guardrailEtaPct, e.mejoraMinimaPct;
    if MejoraTiempo(r, e) && d > 0.0 {
      SavesItsShare(r.duracionSegundos, d, m);
      if g + m >= 0.0 {
        AtMost(d, 1.0 - m, 1.0 + g);
      } else {
        AtMost(d, 1.0 - m, 0.0);
      }
    }
  }

  lemma AtMost(d: real, x: real, y: real)
    requires d > 0.0 && x <= y
    ensures d * x <= d * y
  {
  }

  /** So with margins that are not negative every recommendation arrives in time. */
  lemma GuardrailHolds(e: Entrada, k: nat)
    requires e.actual.duracionSegundos >= 0.0 && e.guardrailEtaPct + e.mejoraMinimaPct >= 0.0
    requires k < |e.alternativas| && Califica(e, k)
    ensures e.alternativas[k].duracionSegundos <= EtaMax(e)
  {
    QualifiesWithin(e.alternativas[k], e);
  }

  /** A route recommended on time is faster than the current one, unless the improvement margin is negative. */
  lemma TimeIsSaved(r: Ruta, e: Entrada)
    requires e.actual.duracionSegundos > 0.0 && e.mejoraMinimaPct >= 0.0 && MotivoDe(r, e) == Some(Tiempo)
    ensures r.duracionSegundos < e.actual.duracionSegundos
  {
    SavesItsShare(r.duracionSegundos, e.actual.duracionSegundos, e.mejoraMinimaPct);
    AtMost(e.actual.duracionSegundos, 1.0 - e.mejoraMinimaPct, 1.0);
  }
}
