/** The gate between a canary revision and all the traffic: a probe, a sample floor, an error rate and a p95. */
module Canary {
  import opened Options

  datatype Clase = Aplicacion | Ingress | Transporte

  /** The answer to one request of the probe: no status when the transport failed. */
  datatype Respuesta = Respuesta(status: Option<int>, clase: Clase, ms: real)

  datatype Corrida = Corrida(llegaron: nat, clase: Clase, cincoXx: nat, cuatroXx: nat, erroresTransporte: nat,
                             llegoALaApp: bool, latenciasMs: seq<real>)

  datatype Camino = CaminoOk | CaminoFallo(clase: Clase)

  datatype Job = JobOk | JobFallo | JobNoCorrido | JobNoNecesario | JobPerdido

  datatype Sonda = Sonda(teniaUrl: bool, llegoALaApp: bool, respuestasApp: int, cincoXx: int, cuatroXx: int,
                         erroresTransporte: int, latenciasMs: seq<real>, p95Ms: Option<real>, caminoDirecto: Camino, job: Job)

  /** What the log of the Job says, if it says anything. */
  datatype Resumen = Resumen(llegoALaApp: bool, respuestasApp: int, cincoXx: int, cuatroXx: int, erroresTransporte: int,
                             latenciasMs: seq<real>, p95Ms: Option<real>)

  // ----- The 95th percentile -----

  function Insert(x: real, xs: seq<real>): seq<real> {
    if xs == [] || x <= xs[0] then [x] + xs else [xs[0]] + Insert(x, xs[1..])
  }

  function Sorted(xs: seq<real>): seq<real> {
    if xs == [] then [] else Insert(xs[0], Sorted(xs[1..]))
  }

  /** How many of `xs` are at or below `v`. */
  function AtOrBelow(xs: seq<real>, v: real): nat {
    if xs == [] then 0 else (if xs[0] <= v then 1 else 0) + AtOrBelow(xs[1..], v)
  }

  lemma AtOrBelowCons(x: real, xs: seq<real>, v: real)
    ensures AtOrBelow([x] + xs, v) == (if x <= v then 1 else 0) + AtOrBelow(xs, v)
  {
    assert ([x] + xs)[1..] == xs;
  }

  ghost predicate InOrder(xs: seq<real>) {
    forall i, j :: 0 <= i < j < |xs| ==> xs[i] <= xs[j]
  }

  lemma {:induction false} InsertFacts(x: real, xs: seq<real>, v: real)
    requires InOrder(xs)
    ensures InOrder(Insert(x, xs)) && |Insert(x, xs)| == |xs| + 1
    ensures AtOrBelow(Insert(x, xs), v) == AtOrBelow(xs, v) + (if x <= v then 1 else 0)
    ensures forall y :: y in Insert(x, xs) <==> y == x || y in xs
    decreases |xs|
  {
    if xs == [] || x <= xs[0] {
      AtOrBelowCons(x, xs, v);
    } else {
      InsertFacts(x, xs[1..], v);
      AtOrBelowCons(xs[0], Insert(x, xs[1..]), v);
      assert xs == [xs[0]] + xs[1..];
      forall j | 0 < j < |Insert(x, xs)|
        ensures xs[0] <= Insert(x, xs)[j]
      {
        assert Insert(x, xs)[j] in Insert(x, xs[1..]);
      }
    }
  }

  lemma {:induction false} SortedFacts(xs: seq<real>, v: real)
    ensures InOrder(Sorted(xs)) && |Sorted(xs)| == |xs|
    ensures AtOrBelow(Sorted(xs), v) == AtOrBelow(xs, v)
    ensures forall y :: y in Sorted(xs) <==> y in xs
    decreases |xs|
  {
    if xs != [] {
      SortedFacts(xs[1..], v);
      InsertFacts(xs[0], Sorted(xs[1..]), v);
      assert xs == [xs[0]] + xs[1..];
    }
  }

  /** In sorted order, the `i + 1` first are at or below the one at `i`; those below it are among the first `i`. */
  lemma {:induction false} RankOfIndex(xs: seq<real>, i: nat, v: real)
    requires InOrder(xs) && i < |xs|
    ensures xs[i] <= v ==> AtOrBelow(xs, v) >= i + 1
    ensures v < xs[i] ==> AtOrBelow(xs, v) <= i
    decreases |xs|
  {
    if i > 0 {
      RankOfIndex(xs[1..], i - 1, v);
    } else if v < xs[0] {
      NoneBelow(xs, v);
    }
  }

  lemma {:induction false} NoneBelow(xs: seq<real>, v: real)
    requires forall i :: 0 <= i < |xs| ==> v < xs[i]
    ensures AtOrBelow(xs, v) == 0
  {
    if xs != [] {
      NoneBelow(xs[1..], v);
    }
  }

  /** The nearest rank: the sample at `ceil(0.95 n)`, counting from 1. */
  function Percentil95(xs: seq<real>): Option<real> {
    if xs == [] then None
    else
      var rank := (19 * |xs| + 19) / 20;
      SortedFacts(xs, 0.0);
      Some(Sorted(xs)[if rank > 0 then rank - 1 else 0])
  }

  predicate Covers95(xs: seq<real>, v: real) {
    20 * AtOrBelow(xs, v) >= 19 * |xs|
  }

  /** The percentile is the least of the samples with at least 95 % of them at or below it. */
  lemma Percentil95IsLeast(xs: seq<real>, w: real)
    requires xs != []
    ensures var v := Percentil95(xs).value;
            v in xs && Covers95(xs, v) && (Covers95(xs, w) ==> v <= w)
  {
    var rank := (19 * |xs| + 19) / 20;
    var v := Percentil95(xs).value;
    SortedFacts(xs, v);
    SortedFacts(xs, w);
    RankOfIndex(Sorted(xs), rank - 1, v);
    RankOfIndex(Sorted(xs), rank - 1, w);
    assert v == Sorted(xs)[rank - 1];
  }

  // ----- The probe -----

  /** The requests that were made: all of them, or one if it does not reach the application. */
  function Hechas(rs: seq<Respuesta>): seq<Respuesta> {
    if rs != [] && rs[0].clase != Aplicacion then rs[..1] else rs
  }

  predicate LlegaALaApp(r: Respuesta) {
    r.status.Some? && r.clase == Aplicacion
  }

  function Cuenta(rs: seq<Respuesta>, p: Respuesta -> bool): nat {
    if rs == [] then 0 else Cuenta(rs[..|rs| - 1], p) + (if p(rs[|rs| - 1]) then 1 else 0)
  }

  function Latencias(rs: seq<Respuesta>): seq<real> {
    if rs == [] then []
    else Latencias(rs[..|rs| - 1]) + (if LlegaALaApp(rs[|rs| - 1]) then [rs[|rs| - 1].ms] else [])
  }

  predicate EsCincoXx(r: Respuesta) { LlegaALaApp(r) && r.status.value >= 500 }
  predicate EsCuatroXx(r: Respuesta) { r.status.Some? && 400 <= r.status.value < 500 }
  predicate SinStatus(r: Respuesta) { r.status.None? }

  /** What a probe counts when these are the answers. */
  ghost predicate Resume(rs: seq<Respuesta>, c: Corrida) {
    var hechas := Hechas(rs);
    && c.llegaron == Cuenta(hechas, LlegaALaApp) && c.cincoXx == Cuenta(hechas, EsCincoXx)
    && c.cuatroXx == Cuenta(hechas, EsCuatroXx) && c.erroresTransporte == Cuenta(hechas, SinStatus)
    && c.latenciasMs == Latencias(hechas) && c.llegoALaApp == (c.llegaron > 0)
    && c.clase == (if rs == [] then Transporte else rs[0].clase)
  }

  method CorrerPlan(rs: seq<Respuesta>) returns (c: Corrida)
    ensures Resume(rs, c)
  {
    c := Corrida(0, Transporte, 0, 0, 0, false, []);
    for i := 0 to |rs|
      invariant i > 0 ==> rs[0].clase == Aplicacion
      invariant c.llegaron == Cuenta(rs[..i], LlegaALaApp) && c.cincoXx == Cuenta(rs[..i], EsCincoXx)
      invariant c.cuatroXx == Cuenta(rs[..i], EsCuatroXx) && c.erroresTransporte == Cuenta(rs[..i], SinStatus)
      invariant c.latenciasMs == Latencias(rs[..i]) && c.llegoALaApp == (c.llegaron > 0)
      invariant c.clase == (if i == 0 then Transporte else rs[0].clase)
    {
      assert rs[..i + 1][..i] == rs[..i];
      var r := rs[i];
      if r.status.Some? && 400 <= r.status.value < 500 {
        c := c.(cuatroXx := c.cuatroXx + 1);
      }
      if r.status.None? {
        c := c.(erroresTransporte := c.erroresTransporte + 1);
      } else if r.clase == Aplicacion {
        c := c.(llegaron := c.llegaron + 1, llegoALaApp := true, latenciasMs := c.latenciasMs + [r.ms]);
        if r.status.value >= 500 {
          c := c.(cincoXx := c.cincoXx + 1);
        }
      }
      if i == 0 {
        c := c.(clase := r.clase);
        if r.clase != Aplicacion {
          return;
        }
      }
    }
    assert rs[..|rs|] == rs;
  }

  function ArmarResultado(teniaUrl: bool, c: Corrida): Sonda {
    Sonda(teniaUrl, c.llegoALaApp, c.llegaron, c.cincoXx, c.cuatroXx, c.erroresTransporte, c.latenciasMs,
          Percentil95(c.latenciasMs), if c.llegoALaApp then CaminoOk else CaminoFallo(c.clase),
          if c.llegoALaApp then JobNoNecesario else JobNoCorrido)
  }

  /** The sample of a Job that reached the application replaces the probe's; otherwise the Job failed. */
  function AplicarLogJob(s: Sonda, resumen: Option<Resumen>): Sonda {
    match resumen
    case None => s.(job := JobFallo)
    case Some(r) =>
      if !r.llegoALaApp then
        s.(job := JobFallo, erroresTransporte := s.erroresTransporte + r.erroresTransporte,
           cincoXx := s.cincoXx + r.cincoXx, cuatroXx := s.cuatroXx + r.cuatroXx)
      else
        Sonda(s.teniaUrl, true, r.respuestasApp, r.cincoXx, r.cuatroXx, r.erroresTransporte, r.latenciasMs, r.p95Ms,
              s.caminoDirecto, JobOk)
  }

  /** What was done to the result of the probe before the gate reads it. */
  datatype Origen = SoloSonda | ConJob(resumen: Option<Resumen>) | Marcada(job: Job)

  /** A result as the gate finds it. */
  function Escrita(teniaUrl: bool, c: Corrida, o: Origen): Sonda {
    var s := ArmarResultado(teniaUrl, c);
    match o
    case SoloSonda => s
    case ConJob(resumen) => AplicarLogJob(s, resumen)
    case Marcada(job) => s.(job := job)
  }

  /** The deployment marks a Job as failed or lost, never as anything else. */
  predicate DelDespliegue(o: Origen) {
    o.Marcada? ==> o.job == JobFallo || o.job == JobPerdido
  }

  // ----- The gate -----

  datatype Veredicto = Promover | NoPromover

  function P95DeSonda(s: Sonda): seq<real> {
    if s.p95Ms.Some? then [s.p95Ms.value]
    else if Percentil95(s.latenciasMs).Some? then [Percentil95(s.latenciasMs).value]
    else []
  }

  function DecidirResultadoSonda(s: Sonda): Veredicto {
    if !s.teniaUrl then Promover
    else if s.llegoALaApp then (if s.cincoXx > 0 || s.erroresTransporte > 0 then NoPromover else Promover)
    else if s.job == JobPerdido then NoPromover
    else if s.caminoDirecto != CaminoOk && (s.job == JobFallo || s.job == JobNoCorrido) then NoPromover
    else Promover
  }

  method Maximo(xs: seq<real>) returns (m: real)
    requires xs != []
    ensures m in xs && forall x :: x in xs ==> x <= m
  {
    m := xs[0];
    for i := 1 to |xs|
      invariant m in xs && forall k :: 0 <= k < i ==> xs[k] <= m
    {
      if xs[i] > m {
        m := xs[i];
      }
    }
  }

  ghost predicate Rapidas(p95s: seq<real>) {
    forall x :: x in p95s ==> x < 500.0
  }

  method EvaluarSlos(total: int, cincoXx: int, p95s: seq<real>) returns (v: Veredicto)
    requires total > 0
    ensures v == Promover <==> 100 * cincoXx < total && Rapidas(p95s)
  {
    var rate := cincoXx as real / total as real;
    RateBound(cincoXx, total);
    if rate >= 0.01 {
      return NoPromover;
    }
    if p95s != [] {
      var worst := Maximo(p95s);
      if worst >= 500.0 {
        return NoPromover;
      }
    }
    v := Promover;
  }

  lemma RateBound(n: int, d: int)
    requires d > 0
    ensures n as real / d as real >= 0.01 <==> 100 * n >= d
  {
    var q := n as real / d as real;
    assert q * d as real == n as real;
    if q >= 0.01 {
      assert q * d as real >= 0.01 * d as real;
    } else {
      assert q * d as real < 0.01 * d as real;
    }
  }

  method DecidirCanary(total: int, minRequests: int, cincoXx: int, p95s: seq<real>) returns (v: Veredicto)
    ensures v == Promover <==> minRequests > 0 && total >= minRequests && 100 * cincoXx < total && Rapidas(p95s)
  {
    if minRequests <= 0 || total < minRequests {
      return NoPromover;
    }
    v := EvaluarSlos(total, cincoXx, p95s);
  }

  /** The series the gate looks at: Monitoring's once it covers the floor, the probe's before. */
  function Serie(s: Sonda, total: int, minRequests: int, p95s: seq<real>): seq<real> {
    if total >= minRequests || (total <= 0 && P95DeSonda(s) == []) then p95s else P95DeSonda(s)
  }

  /** What the gate asks for, whatever wrote the result of the probe. */
  ghost predicate Pasa(sonda: Option<Sonda>, total: int, minRequests: int, cincoXx: int, p95s: seq<real>) {
    && minRequests > 0 && sonda.Some?
    && var s := sonda.value;
    && s.teniaUrl && DecidirResultadoSonda(s) == Promover
    && (total >= minRequests || (s.llegoALaApp && s.respuestasApp >= minRequests && Serie(s, total, minRequests, p95s) != []))
    && (total > 0 ==> 100 * cincoXx < total)
    && Rapidas(Serie(s, total, minRequests, p95s))
  }

  method DecidirGate(sonda: Option<Sonda>, total: int, minRequests: int, cincoXx: int, p95s: seq<real>) returns (v: Veredicto)
    ensures v == Promover <==> Pasa(sonda, total, minRequests, cincoXx, p95s)
  {
    if minRequests <= 0 {
      return NoPromover;
    }
    if sonda.None? {
      return NoPromover;
    }
    var s := sonda.value;
    if DecidirResultadoSonda(s) != Promover {
      return NoPromover;
    }
    if !s.teniaUrl {
      return NoPromover;
    }
    if total < minRequests && s.llegoALaApp && s.respuestasApp >= minRequests {
      var deSonda := P95DeSonda(s);
      var serie := if total > 0 then deSonda else if deSonda != [] then deSonda else p95s;
      if serie == [] {
        return NoPromover;
      }
      var efectivo := if total > 0 then total else s.respuestasApp;
      v := EvaluarSlos(efectivo, if total > 0 then cincoXx else 0, serie);
      return;
    }
    if total < minRequests && s.llegoALaApp {
      return NoPromover;
    }
    v := DecidirCanary(total, minRequests, cincoXx, p95s);
  }

  /**
   * A result that the deployment wrote passes only if it reached the application, with no 5xx and no transport
   * error, over the floor.
   */
  lemma OnlyHealthyProbesPass(teniaUrl: bool, c: Corrida, o: Origen, total: int, minRequests: int, cincoXx: int, p95s: seq<real>)
    requires DelDespliegue(o) && Pasa(Some(Escrita(teniaUrl, c, o)), total, minRequests, cincoXx, p95s)
    ensures var s := Escrita(teniaUrl, c, o);
            && s.teniaUrl && s.llegoALaApp && s.cincoXx <= 0 && s.erroresTransporte <= 0
            && (total >= minRequests || s.respuestasApp >= minRequests)
  {
    UnreachedIsRefused(teniaUrl, c, o);
  }

  lemma UnreachedIsRefused(teniaUrl: bool, c: Corrida, o: Origen)
    requires DelDespliegue(o)
    ensures var s := Escrita(teniaUrl, c, o);
            teniaUrl && !s.llegoALaApp ==> DecidirResultadoSonda(s) == NoPromover
  {
    assert !c.llegoALaApp ==> ArmarResultado(teniaUrl, c).caminoDirecto.CaminoFallo?;
  }

  /**
   * A mark on the Job of a probe that did not reach the application lets Monitoring decide alone if it says that
   * the Job was fine or not needed, and refuses the revision otherwise, whatever Monitoring has.
   */
  lemma MarkedUnreachedIff(c: Corrida, job: Job, total: int, minRequests: int, cincoXx: int, p95s: seq<real>)
    requires !c.llegoALaApp
    ensures Pasa(Some(Escrita(true, c, Marcada(job))), total, minRequests, cincoXx, p95s)
       <==> && (job == JobOk || job == JobNoNecesario)
            && minRequests > 0 && total >= minRequests && 100 * cincoXx < total && Rapidas(p95s)
  {
  }

  /** So there is a Monitoring with which an unreached probe passes exactly for those two marks. */
  lemma MarkedJobPassesUnreached(c: Corrida, job: Job)
    requires !c.llegoALaApp
    ensures (exists total, minRequests, cincoXx, p95s :: Pasa(Some(Escrita(true, c, Marcada(job))), total, minRequests, cincoXx, p95s))
       <==> job == JobOk || job == JobNoNecesario
  {
    var s := Some(Escrita(true, c, Marcada(job)));
    MarkedUnreachedIff(c, job, 1, 1, 0, []);
    assert job == JobOk || job == JobNoNecesario ==> Pasa(s, 1, 1, 0, []);
    forall total, minRequests, cincoXx, p95s
      ensures Pasa(s, total, minRequests, cincoXx, p95s) ==> job == JobOk || job == JobNoNecesario
    {
      MarkedUnreachedIff(c, job, total, minRequests, cincoXx, p95s);
    }
  }

  // ----- What the gate says about the answers -----

  lemma {:induction false} NoneCounted(rs: seq<Respuesta>, p: Respuesta -> bool)
    ensures Cuenta(rs, p) == 0 <==> forall i :: 0 <= i < |rs| ==> !p(rs[i])
    decreases |rs|
  {
    if rs != [] {
      var init := rs[..|rs| - 1];
      NoneCounted(init, p);
      assert forall i :: 0 <= i < |init| ==> init[i] == rs[i];
    }
  }

  lemma {:induction false} CountOfSame(rs: seq<Respuesta>, p: Respuesta -> bool, q: Respuesta -> bool)
    requires forall r :: p(r) == q(r)
    ensures Cuenta(rs, p) == Cuenta(rs, q)
    decreases |rs|
  {
    if rs != [] {
      CountOfSame(rs[..|rs| - 1], p, q);
    }
  }

  /** How many requests are made: only the first, if it did not reach the application. */
  function Made(rs: seq<Respuesta>): (n: nat)
    ensures n <= |rs|
  {
    if rs != [] && rs[0].clase != Aplicacion then 1 else |rs|
  }

  /** The counters of a probe: how many of the requests made were answered in each way. */
  lemma CountersInNumbers(rs: seq<Respuesta>, c: Corrida)
    requires Resume(rs, c)
    ensures var made := rs[..Made(rs)];
            && c.llegaron == Cuenta(made, (r: Respuesta) => r.clase == Aplicacion && r.status.Some?)
            && c.cincoXx == Cuenta(made, (r: Respuesta) => r.clase == Aplicacion && r.status.Some? && r.status.value >= 500)
            && c.cuatroXx == Cuenta(made, (r: Respuesta) => r.status.Some? && 400 <= r.status.value < 500)
            && c.erroresTransporte == Cuenta(made, (r: Respuesta) => r.status.None?)
  {
    var made := rs[..Made(rs)];
    assert Hechas(rs) == made;
    CountOfSame(made, LlegaALaApp, (r: Respuesta) => r.clase == Aplicacion && r.status.Some?);
    CountOfSame(made, EsCincoXx, (r: Respuesta) => r.clase == Aplicacion && r.status.Some? && r.status.value >= 500);
    CountOfSame(made, EsCuatroXx, (r: Respuesta) => r.status.Some? && 400 <= r.status.value < 500);
    CountOfSame(made, SinStatus, (r: Respuesta) => r.status.None?);
  }

  /** The answers of the application. */
  function DeLaApp(rs: seq<Respuesta>): set<nat> {
    set i: nat | i < |rs| && rs[i].clase == Aplicacion && rs[i].status.Some?
  }

  /** Those that took less than half a second. */
  function Rapidos(rs: seq<Respuesta>): set<nat> {
    set i: nat | i < |rs| && rs[i].clase == Aplicacion && rs[i].status.Some? && rs[i].ms < 500.0
  }

  lemma {:induction false} AppCounted(rs: seq<Respuesta>)
    ensures Cuenta(rs, LlegaALaApp) == |DeLaApp(rs)| == |Latencias(rs)|
    decreases |rs|
  {
    if rs != [] {
      var n := |rs| - 1;
      AppCounted(rs[..n]);
      if LlegaALaApp(rs[n]) {
        assert DeLaApp(rs) == DeLaApp(rs[..n]) + {n};
      } else {
        assert DeLaApp(rs) == DeLaApp(rs[..n]);
      }
    }
  }

  /** How many of `xs` are below half a second. */
  function Below(xs: seq<real>): nat {
    if xs == [] then 0 else Below(xs[..|xs| - 1]) + (if xs[|xs| - 1] < 500.0 then 1 else 0)
  }

  lemma {:induction false} FastCounted(rs: seq<Respuesta>)
    ensures Below(Latencias(rs)) == |Rapidos(rs)|
    decreases |rs|
  {
    if rs != [] {
      var n := |rs| - 1;
      FastCounted(rs[..n]);
      if n in Rapidos(rs) {
        assert Rapidos(rs) == Rapidos(rs[..n]) + {n};
      } else {
        assert Rapidos(rs) == Rapidos(rs[..n]);
      }
      if LlegaALaApp(rs[n]) {
        assert Latencias(rs)[..|Latencias(rs)| - 1] == Latencias(rs[..n]);
      } else {
        assert Latencias(rs[..n]) + [] == Latencias(rs[..n]);
      }
    }
  }

  lemma {:induction false} AtOrBelowSnoc(xs: seq<real>, x: real, v: real)
    ensures AtOrBelow(xs + [x], v) == AtOrBelow(xs, v) + (if x <= v then 1 else 0)
    decreases |xs|
  {
    if xs == [] {
      assert [] + [x] == [x];
    } else {
      AtOrBelowSnoc(xs[1..], x, v);
      assert (xs + [x])[1..] == xs[1..] + [x];
    }
  }

  /** How an answer is classified, from its status and what its type and body look like. */
  function Clasificar(status: Option<int>, json: bool, html: bool, noEncontrado: bool): Clase {
    if status.None? then Transporte
    else if status.value >= 500 || json then Aplicacion
    else if html || (status.value == 404 && noEncontrado) then Ingress
    else Aplicacion
  }

  /** Answers as the probe classifies them. */
  ghost predicate Clasificadas(rs: seq<Respuesta>) {
    forall i :: 0 <= i < |rs| ==> exists json, html, no :: rs[i].clase == Clasificar(rs[i].status, json, html, no)
  }

  /** A healthy probe: the first answer is the application's, every request was answered, and none with a 5xx. */
  ghost predicate Sana(rs: seq<Respuesta>) {
    && rs != [] && rs[0].clase == Aplicacion
    && forall i :: 0 <= i < |rs| ==> rs[i].status.Some? && rs[i].status.value < 500
  }

  lemma CleanCountersMeanHealthy(rs: seq<Respuesta>, c: Corrida)
    requires Clasificadas(rs) && Resume(rs, c) && c.llegoALaApp && c.cincoXx == 0 && c.erroresTransporte == 0
    ensures Sana(rs) && c.llegaron == |DeLaApp(rs)| && c.latenciasMs == Latencias(rs)
  {
    var hechas := Hechas(rs);
    NoneCounted(hechas, EsCincoXx);
    NoneCounted(hechas, SinStatus);
    AppCounted(rs);
    if rs == [] || rs[0].clase != Aplicacion {
      NotReached(rs);
    }
    forall i | 0 <= i < |rs|
      ensures rs[i].status.Some? && rs[i].status.value < 500
    {
      assert !EsCincoXx(rs[i]) && !SinStatus(rs[i]);
    }
  }

  lemma NotReached(rs: seq<Respuesta>)
    requires rs == [] || rs[0].clase != Aplicacion
    ensures Cuenta(Hechas(rs), LlegaALaApp) == 0
  {
    NoneCounted(Hechas(rs), LlegaALaApp);
  }

  lemma {:induction false} AtOrBelowGrows(xs: seq<real>, v: real, w: real)
    requires v <= w
    ensures AtOrBelow(xs, v) <= AtOrBelow(xs, w)
    decreases |xs|
  {
    if xs != [] {
      AtOrBelowGrows(xs[1..], v, w);
    }
  }

  /** A bound below half a second that all the fast ones keep, and those that keep any such bound are fast. */
  lemma {:induction false} FastBound(xs: seq<real>, v: real) returns (w: real)
    ensures w < 500.0 && AtOrBelow(xs, w) >= Below(xs)
    ensures v < 500.0 ==> AtOrBelow(xs, v) <= Below(xs)
    decreases |xs|
  {
    if xs == [] {
      w := 0.0;
    } else {
      var n := |xs| - 1;
      var u := FastBound(xs[..n], v);
      w := if u < xs[n] < 500.0 then xs[n] else u;
      assert xs == xs[..n] + [xs[n]];
      AtOrBelowSnoc(xs[..n], xs[n], w);
      AtOrBelowSnoc(xs[..n], xs[n], v);
      AtOrBelowGrows(xs[..n], u, w);
    }
  }

  /** The p95 of a sample is under half a second exactly if 95 % of it is. */
  lemma FastIff(xs: seq<real>)
    requires xs != []
    ensures Percentil95(xs).value < 500.0 <==> 20 * Below(xs) >= 19 * |xs|
  {
    var v := Percentil95(xs).value;
    var w := FastBound(xs, v);
    Percentil95IsLeast(xs, v);
    Percentil95IsLeast(xs, w);
  }

  /** What Monitoring has to say: enough requests, under 1 % of them 5xx, every p95 under half a second. */
  ghost predicate MonitoringBasta(total: int, minRequests: int, cincoXx: int, p95s: seq<real>) {
    total >= minRequests && 100 * cincoXx < total && forall i :: 0 <= i < |p95s| ==> p95s[i] < 500.0
  }

  /** Or, while Monitoring has too few, the answers: enough of them, 95 % of them fast, and Monitoring not against it. */
  ghost predicate RespuestasBastan(rs: seq<Respuesta>, total: int, minRequests: int, cincoXx: int) {
    && total < minRequests <= |DeLaApp(rs)| && 20 * |Rapidos(rs)| >= 19 * |DeLaApp(rs)|
    && (total > 0 ==> 100 * cincoXx < total)
  }

  lemma CleanProbe(rs: seq<Respuesta>, c: Corrida)
    requires Resume(rs, c) && Sana(rs)
    ensures c.llegoALaApp && c.cincoXx == 0 && c.erroresTransporte == 0
    ensures c.llegaron == |DeLaApp(rs)| == |Latencias(rs)| && c.latenciasMs == Latencias(rs)
  {
    NoneCounted(rs, EsCincoXx);
    NoneCounted(rs, SinStatus);
    NoneCounted(rs, LlegaALaApp);
    AppCounted(rs);
    assert LlegaALaApp(rs[0]);
  }

  /**
   * The gate, from the answers: it promotes the result of a probe alone if and only if the probe had an address and was
   * healthy, and Monitoring or the answers themselves are enough and fast enough.
   */
  lemma PromotesExactlyHealthyAnswers(teniaUrl: bool, rs: seq<Respuesta>, c: Corrida, total: int, minRequests: int, cincoXx: int, p95s: seq<real>)
    requires Clasificadas(rs) && Resume(rs, c)
    ensures Pasa(Some(Escrita(teniaUrl, c, SoloSonda)), total, minRequests, cincoXx, p95s)
       <==> && teniaUrl && Sana(rs) && minRequests > 0
            && (MonitoringBasta(total, minRequests, cincoXx, p95s) || RespuestasBastan(rs, total, minRequests, cincoXx))
  {
    var s := Some(Escrita(teniaUrl, c, SoloSonda));
    if Pasa(s, total, minRequests, cincoXx, p95s) {
      OnlyHealthyProbesPass(teniaUrl, c, SoloSonda, total, minRequests, cincoXx, p95s);
      CleanCountersMeanHealthy(rs, c);
    }
    if Sana(rs) {
      CleanProbe(rs, c);
      FastIff(Latencias(rs));
      FastCounted(rs);
      HealthyPasses(teniaUrl, rs, c, total, minRequests, cincoXx, p95s);
    }
  }

  lemma HealthyPasses(teniaUrl: bool, rs: seq<Respuesta>, c: Corrida, total: int, minRequests: int, cincoXx: int, p95s: seq<real>)
    requires c.llegoALaApp && c.cincoXx == 0 && c.erroresTransporte == 0 && c.latenciasMs == Latencias(rs) != []
    requires c.llegaron == |DeLaApp(rs)| == |Latencias(rs)|
    requires Percentil95(Latencias(rs)).value < 500.0 <==> 20 * |Rapidos(rs)| >= 19 * |DeLaApp(rs)|
    ensures Pasa(Some(Escrita(teniaUrl, c, SoloSonda)), total, minRequests, cincoXx, p95s)
       <==> && teniaUrl && minRequests > 0
            && (MonitoringBasta(total, minRequests, cincoXx, p95s) || RespuestasBastan(rs, total, minRequests, cincoXx))
  {
    var s := Escrita(teniaUrl, c, SoloSonda);
    var v := Percentil95(Latencias(rs)).value;
    assert P95DeSonda(s) == [v] && Rapidas([v]) == (v < 500.0) by { assert v in [v]; }
    assert forall i :: 0 <= i < |p95s| ==> p95s[i] in p95s;
  }

  /** And so it is when the result was marked as failed or lost afterwards, which changes nothing of a probe that reached. */
  lemma MarksDoNotHeal(teniaUrl: bool, rs: seq<Respuesta>, c: Corrida, o: Origen, total: int, minRequests: int, cincoXx: int, p95s: seq<real>)
    requires o.Marcada? && DelDespliegue(o) && Clasificadas(rs) && Resume(rs, c)
    requires Pasa(Some(Escrita(teniaUrl, c, o)), total, minRequests, cincoXx, p95s)
    ensures Sana(rs) && (total >= minRequests || |DeLaApp(rs)| >= minRequests)
  {
    OnlyHealthyProbesPass(teniaUrl, c, o, total, minRequests, cincoXx, p95s);
    CleanCountersMeanHealthy(rs, c);
  }

  /**
   * With a Job: if it reached the application, its summary is what counts, and is clean and reaches the floor unless
   * Monitoring does; if it did not, or left no summary, the probe itself was healthy, and the Job saw no failure either.
   */
  lemma PromotesOnlyHealthyJobs(
    teniaUrl: bool, rs: seq<Respuesta>, c: Corrida, resumen: Option<Resumen>, total: int, minRequests: int, cincoXx: int, p95s: seq<real>)
    requires Clasificadas(rs) && Resume(rs, c) && (resumen.Some? ==> resumen.value.cincoXx >= 0 && resumen.value.erroresTransporte >= 0)
    requires Pasa(Some(Escrita(teniaUrl, c, ConJob(resumen))), total, minRequests, cincoXx, p95s)
    ensures resumen.Some? && resumen.value.llegoALaApp ==>
              && resumen.value.cincoXx == 0 && resumen.value.erroresTransporte == 0
              && (total >= minRequests || resumen.value.respuestasApp >= minRequests)
    ensures !(resumen.Some? && resumen.value.llegoALaApp) ==>
              && Sana(rs) && (total >= minRequests || |DeLaApp(rs)| >= minRequests)
              && (resumen.Some? ==> resumen.value.cincoXx == 0 && resumen.value.erroresTransporte == 0)
  {
    OnlyHealthyProbesPass(teniaUrl, c, ConJob(resumen), total, minRequests, cincoXx, p95s);
    if !(resumen.Some? && resumen.value.llegoALaApp) {
      CleanCountersMeanHealthy(rs, c);
    }
  }

  /** The sample of a Job is enough: its answers reach the floor, and its p95, or else its latencies, are fast. */
  ghost predicate JobBasta(r: Resumen, total: int, minRequests: int, cincoXx: int, p95s: seq<real>) {
    && total < minRequests <= r.respuestasApp && (total > 0 ==> 100 * cincoXx < total)
    && (r.p95Ms.Some? ==> r.p95Ms.value < 500.0)
    && (r.p95Ms.None? && r.latenciasMs != [] ==> 20 * Below(r.latenciasMs) >= 19 * |r.latenciasMs|)
    && (r.p95Ms.None? && r.latenciasMs == [] ==> total <= 0 && p95s != [] && forall i :: 0 <= i < |p95s| ==> p95s[i] < 500.0)
  }

  /** The gate, from the summary of a Job that reached the application, whatever the probe itself saw. */
  lemma PromotesExactlyHealthyJobs(
    teniaUrl: bool, c: Corrida, r: Resumen, total: int, minRequests: int, cincoXx: int, p95s: seq<real>)
    requires r.llegoALaApp
    ensures Pasa(Some(Escrita(teniaUrl, c, ConJob(Some(r)))), total, minRequests, cincoXx, p95s)
       <==> && teniaUrl && minRequests > 0 && r.cincoXx <= 0 && r.erroresTransporte <= 0
            && (MonitoringBasta(total, minRequests, cincoXx, p95s) || JobBasta(r, total, minRequests, cincoXx, p95s))
  {
    var s := Escrita(teniaUrl, c, ConJob(Some(r)));
    RapidasPorIndice(p95s);
    var serie := P95DeSonda(s);
    assert serie == if r.p95Ms.Some? then [r.p95Ms.value] else if r.latenciasMs != [] then [Percentil95(r.latenciasMs).value] else [];
    RapidasPorIndice(serie);
    assert serie != [] ==> (Rapidas(serie) <==> serie[0] < 500.0);
    if r.latenciasMs != [] {
      FastIff(r.latenciasMs);
    }
  }

  lemma RapidasPorIndice(p95s: seq<real>)
    ensures Rapidas(p95s) <==> forall i :: 0 <= i < |p95s| ==> p95s[i] < 500.0
  {
    assert forall i :: 0 <= i < |p95s| ==> p95s[i] in p95s;
  }
}
