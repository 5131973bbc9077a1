/** The price of an early payment: a percentage that grows with the shipper's term, in exact arithmetic. */
module Tarifa {

  datatype Error = MontoNegativo | MontoNoEntero | PlazoNoPositivo | PlazoNoEntero

  /** Percentages in hundredths of a percent. */
  datatype Resultado = Ok(tarifaPct: int, tarifaClp: int, montoAdelantadoClp: int) | Fallo(error: Error)

  datatype Punto = Punto(dias: int, pct: int)

  const TABLA: seq<Punto> := [Punto(30, 150), Punto(45, 220), Punto(60, 300), Punto(90, 450)]
  const TECHO := 800
  const INCREMENTO_POR_15D := 50

  /** The integer nearest to `num / den`, halves up, as `Math.round` has it. */
  function Redondear(num: int, den: int): int
    requires den > 0
  {
    (2 * num + den) / (2 * den)
  }

  function TechoDe(num: int, den: int): int
    requires den > 0
  {
    (num + den - 1) / den
  }

  function Interpolar(a: Punto, b: Punto, plazo: int): int
    requires a.dias < b.dias
  {
    Redondear(a.pct * (b.dias - a.dias) + (plazo - a.dias) * (b.pct - a.pct), b.dias - a.dias)
  }

  /** The percentage for a term: a floor, a rounded interpolation of the table, and steps up to a ceiling. */
  function TarifaPct(plazo: int): int {
    if plazo <= 30 then 150
    else if plazo <= 45 then Interpolar(TABLA[0], TABLA[1], plazo)
    else if plazo <= 60 then Interpolar(TABLA[1], TABLA[2], plazo)
    else if plazo <= 90 then Interpolar(TABLA[2], TABLA[3], plazo)
    else
      var proyectada := 450 + TechoDe(plazo - 90, 15) * INCREMENTO_POR_15D;
      if proyectada < TECHO then proyectada else TECHO
  }

  method ResolverTarifaPct(plazoDias: int) returns (pct: int)
    ensures pct == TarifaPct(plazoDias)
  {
    var primero, ultimo := TABLA[0], TABLA[|TABLA| - 1];
    if plazoDias <= primero.dias {
      return primero.pct;
    }
    if plazoDias >= ultimo.dias {
      if plazoDias == ultimo.dias {
        return ultimo.pct;
      }
      var incrementos := TechoDe(plazoDias - ultimo.dias, 15);
      var proyectada := ultimo.pct + incrementos * INCREMENTO_POR_15D;
      return if proyectada < TECHO then proyectada else TECHO;
    }
    for i := 0 to |TABLA| - 1
      invariant TABLA[i].dias < plazoDias
    {
      var a, b := TABLA[i], TABLA[i + 1];
      if a.dias <= plazoDias <= b.dias {
        return Interpolar(a, b, plazoDias);
      }
    }
    pct := ultimo.pct;
  }

  predicate Entero(x: real) {
    x == x.Floor as real
  }

  function TarifaClp(monto: int, pct: int): int {
    Redondear(monto * pct, 10_000)
  }

  method CalcularTarifaProntoPago(montoNetoClp: real, plazoDiasShipper: real) returns (r: Resultado)
    ensures r.Ok? <==> montoNetoClp >= 0.0 && Entero(montoNetoClp) && plazoDiasShipper > 0.0 && Entero(plazoDiasShipper)
    ensures r.Ok? ==>
      && r.tarifaPct == TarifaPct(plazoDiasShipper.Floor)
      && r.tarifaClp == TarifaClp(montoNetoClp.Floor, r.tarifaPct)
      && r.tarifaClp + r.montoAdelantadoClp == montoNetoClp.Floor
    ensures r == Fallo(MontoNegativo) <==> montoNetoClp < 0.0
    ensures r == Fallo(MontoNoEntero) <==> montoNetoClp >= 0.0 && !Entero(montoNetoClp)
    ensures r == Fallo(PlazoNoPositivo) <==> montoNetoClp >= 0.0 && Entero(montoNetoClp) && plazoDiasShipper <= 0.0
  {
    if montoNetoClp < 0.0 {
      return Fallo(MontoNegativo);
    }
    if !Entero(montoNetoClp) {
      return Fallo(MontoNoEntero);
    }
    if plazoDiasShipper <= 0.0 {
      return Fallo(PlazoNoPositivo);
    }
    if !Entero(plazoDiasShipper) {
      return Fallo(PlazoNoEntero);
    }
    var tarifaPct := ResolverTarifaPct(plazoDiasShipper.Floor);
    var tarifaClp := TarifaClp(montoNetoClp.Floor, tarifaPct);
    r := Ok(tarifaPct, tarifaClp, montoNetoClp.Floor - tarifaClp);
  }

  // ----- The percentage -----

  /** The points of the table are met exactly, and the pieces join there. */
  lemma TablaExacta(i: nat)
    requires i < |TABLA|
    ensures TarifaPct(TABLA[i].dias) == TABLA[i].pct
    ensures i > 0 ==> Interpolar(TABLA[i - 1], TABLA[i], TABLA[i].dias) == TABLA[i].pct
    ensures i + 1 < |TABLA| ==> Interpolar(TABLA[i], TABLA[i + 1], TABLA[i].dias) == TABLA[i].pct
  {
  }

  /** Rounding moves a quotient by half at most. */
  lemma RedondearCerca(num: int, den: int)
    requires den > 0
    ensures -den <= 2 * (Redondear(num, den) * den - num) <= den
  {
    var q, d := Redondear(num, den), 2 * den;
    assert (2 * num + den) / d == q && d * q <= 2 * num + den < d * q + d;
  }

  /** A term between two points of the table is interpolated between those two. */
  lemma EntrePuntos(i: nat, plazo: int)
    requires i + 1 < |TABLA| && TABLA[i].dias <= plazo <= TABLA[i + 1].dias
    ensures TarifaPct(plazo) == Interpolar(TABLA[i], TABLA[i + 1], plazo)
  {
    TablaExacta(i);
  }

  /** Between two points the percentage is the straight line's, to within half a hundredth. */
  lemma InterpolacionLineal(i: nat, plazo: int)
    requires i + 1 < |TABLA| && TABLA[i].dias <= plazo <= TABLA[i + 1].dias
    ensures var (a, b) := (TABLA[i], TABLA[i + 1]);
            var n := b.dias - a.dias;
            var desvio := TarifaPct(plazo) * n - (a.pct * n + (plazo - a.dias) * (b.pct - a.pct));
            -n <= 2 * desvio <= n
  {
    var (a, b) := (TABLA[i], TABLA[i + 1]);
    EntrePuntos(i, plazo);
    RedondearCerca(a.pct * (b.dias - a.dias) + (plazo - a.dias) * (b.pct - a.pct), b.dias - a.dias);
  }

  /** A longer term never has a lower percentage, which stays between the floor and the ceiling. */
  lemma TarifaCreciente(p: int, q: int)
    requires p <= q
    ensures TarifaPct(p) <= TarifaPct(q)
    ensures 150 <= TarifaPct(p) <= TECHO
  {
    EnSuTramo(p);
    EnSuTramo(q);
    if p <= 90 && q <= 90 {
      CrecienteEnLaTabla(p, q);
    }
  }

  /** The table covers the percentages up to its last point, and the steps those from there on. */
  lemma EnSuTramo(plazo: int)
    ensures plazo <= 90 ==> 150 <= TarifaPct(plazo) <= 450
    ensures plazo > 90 ==> 450 < TarifaPct(plazo) <= TECHO
  {
    if 30 <= plazo <= 90 {
      var i := if plazo <= 45 then 0 else if plazo <= 60 then 1 else 2;
      EntrePuntos(i, plazo);
      InterpolarCreciente(i, TABLA[i].dias, plazo);
      InterpolarCreciente(i, plazo, TABLA[i + 1].dias);
      TablaExacta(i);
      TablaExacta(i + 1);
    }
  }

  lemma InterpolarCreciente(i: nat, p: int, q: int)
    requires i + 1 < |TABLA| && TABLA[i].dias <= p <= q <= TABLA[i + 1].dias
    ensures Interpolar(TABLA[i], TABLA[i + 1], p) <= Interpolar(TABLA[i], TABLA[i + 1], q)
  {
  }

  lemma CrecienteEnLaTabla(p: int, q: int)
    requires p <= q <= 90
    ensures TarifaPct(p) <= TarifaPct(q)
  {
    EnSuTramo(q);
    if p > 30 {
      var i := if p <= 45 then 0 else if p <= 60 then 1 else 2;
      var end := TABLA[i + 1].dias;
      EntrePuntos(i, p);
      TablaExacta(i + 1);
      if q <= end {
        EntrePuntos(i, q);
        InterpolarCreciente(i, p, q);
      } else {
        InterpolarCreciente(i, p, end);
        DesdeElPunto(i + 1, q);
      }
    }
  }

  /** From a point of the table on, the percentage is at least the point's. */
  lemma DesdeElPunto(i: nat, plazo: int)
    requires i < |TABLA| && TABLA[i].dias <= plazo <= 90
    ensures TarifaPct(plazo) >= TABLA[i].pct
    decreases |TABLA| - i
  {
    TablaExacta(i);
    if i + 1 < |TABLA| {
      if plazo <= TABLA[i + 1].dias {
        EntrePuntos(i, plazo);
        InterpolarCreciente(i, TABLA[i].dias, plazo);
      } else {
        DesdeElPunto(i + 1, plazo);
      }
    }
  }

  /** The ceiling is reached from the 181st day on and not before. */
  lemma TechoDesde(plazo: int)
    ensures TarifaPct(plazo) == TECHO <==> plazo > 180
  {
  }

  // ----- The amounts -----

  lemma RedondearCreciente(x: int, y: int)
    requires x <= y
    ensures Redondear(x, 10_000) <= Redondear(y, 10_000)
  {
  }

  lemma ProductoCreciente(m: int, a: int, b: int)
    requires m >= 0 && a <= b
    ensures m * a <= m * b
  {
    assert m * (b - a) >= 0;
  }

  /** The fee is between nothing and the whole, so is the advance, and they add up. */
  lemma AdelantoEnRango(monto: int, plazo: int)
    requires monto >= 0
    ensures 0 <= TarifaClp(monto, TarifaPct(plazo)) <= monto
  {
    TarifaCreciente(plazo, plazo);
    TarifaEnRango(monto, TarifaPct(plazo));
  }

  lemma TarifaEnRango(monto: int, pct: int)
    requires monto >= 0 && 0 <= pct <= 10_000
    ensures 0 <= TarifaClp(monto, pct) <= monto
  {
    ProductoCreciente(monto, 0, pct);
    ProductoCreciente(monto, pct, 10_000);
    RedondearCreciente(0, monto * pct);
    RedondearCreciente(monto * pct, monto * 10_000);
  }

  /** A larger amount never has a smaller advance, nor a smaller fee. */
  lemma AdelantoCrecienteEnMonto(m: int, n: int, plazo: int)
    requires m <= n
    ensures var pct := TarifaPct(plazo);
            && m - TarifaClp(m, pct) <= n - TarifaClp(n, pct)
            && TarifaClp(m, pct) <= TarifaClp(n, pct)
  {
    TarifaCreciente(plazo, plazo);
    TarifaCrecienteEnMonto(m, n, TarifaPct(plazo));
  }

  lemma TarifaCrecienteEnMonto(m: int, n: int, pct: int)
    requires m <= n && 0 <= pct <= 10_000
    ensures TarifaClp(m, pct) <= TarifaClp(n, pct) <= TarifaClp(m, pct) + (n - m)
  {
    var d := n - m;
    ProductoCreciente(d, 0, pct);
    ProductoCreciente(d, pct, 10_000);
    assert n * pct == m * pct + d * pct;
    RedondearCreciente(m * pct, n * pct);
    RedondearCreciente(n * pct, m * pct + d * 10_000);
  }

  /** A longer term never has a larger advance. */
  lemma AdelantoDecrecienteEnPlazo(monto: int, p: int, q: int)
    requires monto >= 0 && p <= q
    ensures monto - TarifaClp(monto, TarifaPct(p)) >= monto - TarifaClp(monto, TarifaPct(q))
  {
    TarifaCreciente(p, q);
    TarifaCrecienteEnPct(monto, TarifaPct(p), TarifaPct(q));
  }

  lemma TarifaCrecienteEnPct(monto: int, a: int, b: int)
    requires monto >= 0 && a <= b
    ensures TarifaClp(monto, a) <= TarifaClp(monto, b)
  {
    ProductoCreciente(monto, a, b);
    RedondearCreciente(monto * a, monto * b);
  }

  /** The fee is the percentage of the amount, rounded to the nearest peso, halves up. */
  lemma TarifaEsElRedondeo(monto: int, pct: int)
    ensures var tarifa := TarifaClp(monto, pct);
            2 * monto * pct - 10_000 < 20_000 * tarifa <= 2 * monto * pct + 10_000
  {
    var q := TarifaClp(monto, pct);
    assert q == (2 * (monto * pct) + 10_000) / 20_000;
  }

  /** A million at 30 days costs 15 000, and at 90 days 45 000. */
  lemma UnMillon()
    ensures TarifaClp(1_000_000, TarifaPct(30)) == 15_000 && TarifaClp(1_000_000, TarifaPct(90)) == 45_000
  {
  }

  /** `pct` is `num / den` to the nearest integer, halves up. */
  ghost predicate Cerca(pct: int, num: int, den: int) {
    2 * num - den < 2 * pct * den <= 2 * num + den
  }

  /** The percentage of every term, in hundredths: 150 up to 30 days, 220 at 45, 300 at 60, 450 at 90, and 800 after 180. */
  lemma TarifaEnNumeros(plazo: int)
    ensures plazo <= 30 ==> TarifaPct(plazo) == 150
    ensures 30 <= plazo <= 45 ==> Cerca(TarifaPct(plazo), 150 * 15 + (plazo - 30) * 70, 15)
    ensures 45 <= plazo <= 60 ==> Cerca(TarifaPct(plazo), 220 * 15 + (plazo - 45) * 80, 15)
    ensures 60 <= plazo <= 90 ==> Cerca(TarifaPct(plazo), 300 * 30 + (plazo - 60) * 150, 30)
    ensures plazo > 180 ==> TarifaPct(plazo) == 800
  {
  }

  /** From day 91 to day 180 the percentage goes up by half a point every 15 days. */
  lemma Escalones(plazo: int, n: nat)
    requires 1 <= n <= 6 && 90 + 15 * (n - 1) < plazo <= 90 + 15 * n
    ensures TarifaPct(plazo) == 450 + 50 * n
  {
  }
}
