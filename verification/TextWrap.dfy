/** Breaking a text into lines of a certificate, for a font given by the width of every string. */
module TextWrap {

  /** What JavaScript's `\s` matches. */
  predicate IsSpace(c: char) {
    || '\U{0009}' <= c <= '\U{000d}' || c == ' ' || c == '\U{00a0}' || c == '\U{1680}' || '\U{2000}' <= c <= '\U{200a}'
    || c == '\U{2028}' || c == '\U{2029}' || c == '\U{202f}' || c == '\U{205f}' || c == '\U{3000}' || c == '\U{feff}'
  }

  /** The characters of `s` that are not spaces. */
  function Strip(s: string): string {
    if s == [] then [] else Strip(s[..|s| - 1]) + (if IsSpace(s[|s| - 1]) then [] else [s[|s| - 1]])
  }

  function Concat(ss: seq<string>): string {
    if ss == [] then [] else Concat(ss[..|ss| - 1]) + ss[|ss| - 1]
  }

  // ----- The words of a text -----

  /** `replace(/\s+/g, ' ')`. */
  function Collapse(t: string): string {
    if t == [] then []
    else
      var before, c := Collapse(t[..|t| - 1]), t[|t| - 1];
      if !IsSpace(c) then before + [c]
      else if |t| > 1 && IsSpace(t[|t| - 2]) then before
      else before + [' ']
  }

  function TrimStart(s: string): string {
    if s != [] && IsSpace(s[0]) then TrimStart(s[1..]) else s
  }

  function TrimEnd(s: string): string {
    if s != [] && IsSpace(s[|s| - 1]) then TrimEnd(s[..|s| - 1]) else s
  }

  /** `split(' ')`. */
  function Split(s: string): (r: seq<string>)
    ensures |r| >= 1
  {
    if s == [] then [[]]
    else
      var before, c := Split(s[..|s| - 1]), s[|s| - 1];
      if c == ' ' then before + [[]] else before[..|before| - 1] + [before[|before| - 1] + [c]]
  }

  function Words(t: string): seq<string> {
    Split(TrimEnd(TrimStart(Collapse(t))))
  }

  lemma StripSnoc(s: string, c: char)
    ensures Strip(s + [c]) == Strip(s) + (if IsSpace(c) then [] else [c])
  {
    assert (s + [c])[..|s|] == s;
  }

  lemma {:induction false} StripConcat(a: string, b: string)
    ensures Strip(a + b) == Strip(a) + Strip(b)
    decreases |b|
  {
    if b == [] {
      assert a + b == a;
    } else {
      var init, c := b[..|b| - 1], b[|b| - 1];
      StripConcat(a, init);
      StripSnoc(a + init, c);
      Associate(Strip(a), Strip(init), if IsSpace(c) then [] else [c]);
      assert a + b == a + init + [c];
    }
  }

  lemma ConcatSnoc(ss: seq<string>, s: string)
    ensures Concat(ss + [s]) == Concat(ss) + s
  {
    assert (ss + [s])[..|ss|] == ss;
  }

  lemma {:induction false} CollapseKeeps(t: string)
    ensures Strip(Collapse(t)) == Strip(t)
    ensures forall i :: 0 <= i < |Collapse(t)| && IsSpace(Collapse(t)[i]) ==> Collapse(t)[i] == ' '
    decreases |t|
  {
    if t != [] {
      CollapseKeeps(t[..|t| - 1]);
      StripSnoc(Collapse(t[..|t| - 1]), t[|t| - 1]);
      StripSnoc(Collapse(t[..|t| - 1]), ' ');
    }
  }

  lemma {:induction false} TrimStartKeeps(s: string)
    ensures Strip(TrimStart(s)) == Strip(s)
    ensures forall c :: c in TrimStart(s) ==> c in s
    decreases |s|
  {
    if s != [] && IsSpace(s[0]) {
      TrimStartKeeps(s[1..]);
      StripConcat([s[0]], s[1..]);
      StripSnoc([], s[0]);
      assert [s[0]] + s[1..] == s && [] + [s[0]] == [s[0]];
    }
  }

  lemma {:induction false} TrimEndKeeps(s: string)
    ensures Strip(TrimEnd(s)) == Strip(s)
    ensures forall c :: c in TrimEnd(s) ==> c in s
    decreases |s|
  {
    if s != [] && IsSpace(s[|s| - 1]) {
      TrimEndKeeps(s[..|s| - 1]);
    }
  }

  lemma {:induction false} SplitKeeps(s: string)
    requires forall c :: c in s && IsSpace(c) ==> c == ' '
    ensures Concat(Split(s)) == Strip(s)
    decreases |s|
  {
    if s == [] {
      ConcatSnoc([], []);
      assert [] + [[]] == Split(s);
    } else {
      var init, c := s[..|s| - 1], s[|s| - 1];
      SplitKeeps(init);
      var before := Split(init);
      if c == ' ' {
        ConcatSnoc(before, []);
      } else {
        ConcatAppend(before, c);
      }
    }
  }

  lemma ConcatAppend(ss: seq<string>, c: char)
    requires ss != []
    ensures Concat(ss[..|ss| - 1] + [ss[|ss| - 1] + [c]]) == Concat(ss) + [c]
  {
    var head, last := ss[..|ss| - 1], ss[|ss| - 1];
    ConcatSnoc(head, last + [c]);
    Associate(Concat(head), last, [c]);
  }

  lemma Associate<T>(a: seq<T>, b: seq<T>, c: seq<T>)
    ensures a + b + c == a + (b + c)
  {
  }

  /** The words hold every character of the text that is not a space, in order. */
  lemma WordsKeep(t: string)
    ensures Concat(Words(t)) == Strip(t)
  {
    var a := Collapse(t);
    var b := TrimStart(a);
    CollapseKeeps(t);
    TrimStartKeeps(a);
    TrimEndKeeps(b);
    SplitKeeps(TrimEnd(b));
  }

  // ----- Breaking words that do not fit -----

  type Width = string -> real

  /** The line fits, or it is a single character that cannot. */
  predicate Fits(width: Width, ancho: real, line: string) {
    width(line) <= ancho || |line| == 1
  }

  predicate AllFit(width: Width, ancho: real, lines: seq<string>) {
    forall i :: 0 <= i < |lines| ==> Fits(width, ancho, lines[i])
  }

  /** Pieces cut only where the next character would not have fitted. */
  ghost predicate Tight(width: Width, ancho: real, pieces: seq<string>) {
    && (forall i :: 0 <= i < |pieces| ==> pieces[i] != [])
    && (forall i, j :: 0 <= i < j < |pieces| && j == i + 1 ==> width(pieces[i] + [pieces[j][0]]) > ancho)
  }

  /** A word in pieces: whole if it fits. */
  ghost predicate Pieced(width: Width, ancho: real, word: string, pieces: seq<string>) {
    Concat(pieces) == word && if width(word) <= ancho then pieces == [word] else Tight(width, ancho, pieces)
  }

  /** The state of the cutting: the pieces finished, and the one being filled. */
  ghost predicate Cutting(width: Width, ancho: real, trozos: seq<string>, actual: string) {
    && AllFit(width, ancho, trozos) && (actual == [] || Fits(width, ancho, actual))
    && (trozos != [] ==> actual != []) && Tight(width, ancho, if actual == [] then trozos else trozos + [actual])
  }

  method CortarPalabra(p: string, width: Width, ancho: real) returns (trozos: seq<string>)
    ensures Pieced(width, ancho, p, trozos) && AllFit(width, ancho, trozos)
  {
    if width(p) <= ancho {
      ConcatSnoc([], p);
      assert [] + [p] == [p];
      return [p];
    }
    trozos := [];
    var actual := "";
    for i := 0 to |p|
      invariant Cutting(width, ancho, trozos, actual) && Concat(trozos) + actual == p[..i]
    {
      var ch := p[i];
      PrefixSnoc(p, i, Concat(trozos), actual);
      if actual != [] && width(actual + [ch]) > ancho {
        CutHere(width, ancho, trozos, actual, ch);
        trozos := trozos + [actual];
        actual := [ch];
      } else {
        Extend(width, ancho, trozos, actual, ch);
        actual := actual + [ch];
      }
    }
    assert p[..|p|] == p;
    LastPiece(width, ancho, p, trozos, actual);
    if actual != [] {
      trozos := trozos + [actual];
    }
  }

  lemma PrefixSnoc(p: string, i: nat, before: string, actual: string)
    requires i < |p| && before + actual == p[..i]
    ensures before + actual + [p[i]] == before + (actual + [p[i]]) == p[..i + 1]
  {
  }

  lemma LastPiece(width: Width, ancho: real, p: string, trozos: seq<string>, actual: string)
    requires Cutting(width, ancho, trozos, actual) && Concat(trozos) + actual == p && width(p) > ancho
    ensures var all := if actual == [] then trozos else trozos + [actual];
            Pieced(width, ancho, p, all) && AllFit(width, ancho, all)
  {
    if actual != [] {
      ConcatSnoc(trozos, actual);
      FitSnoc(width, ancho, trozos, actual);
    }
  }

  lemma CutHere(width: Width, ancho: real, trozos: seq<string>, actual: string, ch: char)
    requires Cutting(width, ancho, trozos, actual) && actual != [] && width(actual + [ch]) > ancho
    ensures Cutting(width, ancho, trozos + [actual], [ch]) && Concat(trozos + [actual]) == Concat(trozos) + actual
  {
    ConcatSnoc(trozos, actual);
    FitSnoc(width, ancho, trozos, actual);
    TightSnoc(width, ancho, trozos + [actual], [ch]);
  }

  lemma TightSnoc(width: Width, ancho: real, pieces: seq<string>, p: string)
    requires Tight(width, ancho, pieces) && p != []
    requires pieces != [] ==> width(pieces[|pieces| - 1] + [p[0]]) > ancho
    ensures Tight(width, ancho, pieces + [p])
  {
  }

  lemma Extend(width: Width, ancho: real, trozos: seq<string>, actual: string, ch: char)
    requires Cutting(width, ancho, trozos, actual) && (actual == [] || width(actual + [ch]) <= ancho)
    ensures Cutting(width, ancho, trozos, actual + [ch])
  {
    if actual != [] {
      var (a, b) := (trozos + [actual], trozos + [actual + [ch]]);
      assert forall i :: 0 <= i < |trozos| ==> b[i] == a[i];
      assert a[|trozos|] == actual && b[|trozos|] == actual + [ch] && (actual + [ch])[0] == actual[0];
    }
  }

  lemma FitSnoc(width: Width, ancho: real, lines: seq<string>, line: string)
    requires AllFit(width, ancho, lines) && Fits(width, ancho, line)
    ensures AllFit(width, ancho, lines + [line])
  {
  }

  // ----- Filling lines -----

  /** The pieces of a line, with a space between two of them. */
  function Join(pieces: seq<string>): string {
    if pieces == [] then []
    else if |pieces| == 1 then pieces[0]
    else Join(pieces[..|pieces| - 1]) + " " + pieces[|pieces| - 1]
  }

  function Flatten(groups: seq<seq<string>>): seq<string> {
    if groups == [] then [] else Flatten(groups[..|groups| - 1]) + groups[|groups| - 1]
  }

  /** Each line is a group of pieces, and the first piece of the next line would not have fitted on it. */
  ghost predicate Greedy(width: Width, ancho: real, lines: seq<string>, groups: seq<seq<string>>) {
    && |lines| == |groups|
    && (forall i :: 0 <= i < |lines| ==> groups[i] != [] && lines[i] == Join(groups[i]) && lines[i] != [])
    && (forall i :: 0 < i < |lines| ==> width(lines[i - 1] + " " + groups[i][0]) > ancho)
  }

  lemma JoinSnoc(pieces: seq<string>, p: string)
    requires pieces != []
    ensures Join(pieces + [p]) == Join(pieces) + " " + p
  {
    assert (pieces + [p])[..|pieces|] == pieces;
  }

  lemma {:induction false} JoinKeeps(pieces: seq<string>)
    ensures Strip(Join(pieces)) == Strip(Concat(pieces))
    decreases |pieces|
  {
    if |pieces| == 1 {
      ConcatSnoc([], pieces[0]);
      assert [] + [pieces[0]] == pieces && [] + pieces[0] == pieces[0];
    } else if |pieces| > 1 {
      var init, last := pieces[..|pieces| - 1], pieces[|pieces| - 1];
      JoinKeeps(init);
      StripConcat(Join(init) + " ", last);
      StripSnoc(Join(init), ' ');
      StripConcat(Concat(init), last);
    }
  }

  lemma {:induction false} FlattenKeeps(lines: seq<string>, groups: seq<seq<string>>)
    requires |lines| == |groups| && forall i :: 0 <= i < |lines| ==> lines[i] == Join(groups[i])
    ensures Strip(Concat(lines)) == Strip(Concat(Flatten(groups)))
    decreases |lines|
  {
    if lines != [] {
      var n := |lines| - 1;
      FlattenKeeps(lines[..n], groups[..n]);
      JoinKeeps(groups[n]);
      StripConcat(Concat(lines[..n]), lines[n]);
      ConcatConcat(Flatten(groups[..n]), groups[n]);
      StripConcat(Concat(Flatten(groups[..n])), Concat(groups[n]));
    }
  }

  lemma {:induction false} ConcatConcat(a: seq<string>, b: seq<string>)
    ensures Concat(a + b) == Concat(a) + Concat(b)
    decreases |b|
  {
    if b == [] {
      assert a + b == a;
    } else {
      var init, last := b[..|b| - 1], b[|b| - 1];
      ConcatConcat(a, init);
      ConcatSnoc(a + init, last);
      Associate(Concat(a), Concat(init), last);
      assert a + b == a + init + [last];
    }
  }

  ghost predicate Blank(pieces: seq<string>) {
    |pieces| == 1 && |pieces[0]| == 0
  }

  /** Only a text without words has an empty piece, and then no other. */
  ghost predicate NoEmptyPiece(pieces: seq<string>) {
    Blank(pieces) || forall i :: 0 <= i < |pieces| ==> pieces[i] != []
  }

  /** The words, each in its pieces. */
  ghost predicate AllPieced(width: Width, ancho: real, words: seq<string>, trozos: seq<seq<string>>) {
    |trozos| == |words| && forall i :: 0 <= i < |words| ==> Pieced(width, ancho, words[i], trozos[i])
  }

  /** The words, each broken where it has to be. */
  method Pieces(t: string, width: Width, ancho: real) returns (pieces: seq<string>, ghost trozos: seq<seq<string>>)
    ensures AllPieced(width, ancho, Words(t), trozos) && pieces == Flatten(trozos)
    ensures Concat(pieces) == Strip(t) && AllFit(width, ancho, pieces) && NoEmptyPiece(pieces)
    ensures Blank(Words(t)) ==> pieces == [] || Blank(pieces)
    ensures !Blank(Words(t)) ==> !Blank(pieces)
  {
    var words := Words(t);
    WordsKeep(t);
    WordsNotEmpty(t);
    pieces, trozos := [], [];
    for i := 0 to |words|
      invariant AllPieced(width, ancho, words[..i], trozos) && pieces == Flatten(trozos) && AllFit(width, ancho, pieces)
    {
      var deEsta := CortarPalabra(words[i], width, ancho);
      FlattenSnoc(trozos, deEsta);
      PiecedSnoc(width, ancho, words, i, trozos, deEsta);
      pieces, trozos := pieces + deEsta, trozos + [deEsta];
    }
    assert words[..|words|] == words;
    PiecesKeep(width, ancho, words, trozos);
    if Blank(words) {
      EmptyConcat(trozos[0]);
      OnlyPiece(width, ancho, trozos);
    } else {
      PiecesNotEmpty(width, ancho, words, trozos);
    }
  }

  /** The pieces hold the words, in order. */
  lemma {:induction false} PiecesKeep(width: Width, ancho: real, words: seq<string>, trozos: seq<seq<string>>)
    requires AllPieced(width, ancho, words, trozos)
    ensures Concat(Flatten(trozos)) == Concat(words)
    decreases |words|
  {
    if words != [] {
      var n := |words| - 1;
      PiecesKeep(width, ancho, words[..n], trozos[..n]);
      ConcatConcat(Flatten(trozos[..n]), trozos[n]);
    }
  }

  lemma {:induction false} PiecesNotEmpty(width: Width, ancho: real, words: seq<string>, trozos: seq<seq<string>>)
    requires AllPieced(width, ancho, words, trozos) && forall i :: 0 <= i < |words| ==> words[i] != []
    ensures forall i :: 0 <= i < |Flatten(trozos)| ==> Flatten(trozos)[i] != []
    decreases |words|
  {
    if words != [] {
      var n := |words| - 1;
      PiecesNotEmpty(width, ancho, words[..n], trozos[..n]);
      assert Pieced(width, ancho, words[n], trozos[n]);
    }
  }

  /** The pieces of a text without words: an empty one, or none if not even that fits. */
  lemma OnlyPiece(width: Width, ancho: real, trozos: seq<seq<string>>)
    requires |trozos| == 1 && Pieced(width, ancho, [], trozos[0]) && forall i :: 0 <= i < |trozos[0]| ==> trozos[0][i] == []
    ensures Flatten(trozos) == [] || Blank(Flatten(trozos))
  {
    FlattenSnoc([], trozos[0]);
    assert [] + [trozos[0]] == trozos && [] + trozos[0] == trozos[0];
  }

  lemma PiecedSnoc(width: Width, ancho: real, words: seq<string>, i: nat, trozos: seq<seq<string>>, more: seq<string>)
    requires i < |words| && AllPieced(width, ancho, words[..i], trozos) && Pieced(width, ancho, words[i], more)
    ensures AllPieced(width, ancho, words[..i + 1], trozos + [more])
  {
    assert forall k :: 0 <= k < i ==> words[..i + 1][k] == words[..i][k];
  }

  lemma {:induction false} EmptyConcat(ss: seq<string>)
    requires Concat(ss) == []
    ensures forall i :: 0 <= i < |ss| ==> ss[i] == []
    decreases |ss|
  {
    if ss != [] {
      EmptyConcat(ss[..|ss| - 1]);
      assert forall i :: 0 <= i < |ss| - 1 ==> ss[..|ss| - 1][i] == ss[i];
    }
  }

  /** The state of the filling: the lines finished, and the one being filled. */
  ghost predicate Filling(width: Width, ancho: real, lineas: seq<string>, grupos: seq<seq<string>>, actual: string, grupo: seq<string>) {
    && AllFit(width, ancho, lineas) && Greedy(width, ancho, lineas, grupos)
    && actual == Join(grupo) && (actual == [] <==> grupo == [])
    && (actual != [] ==> Fits(width, ancho, actual))
    && (lineas != [] ==> grupo != [] && width(lineas[|lineas| - 1] + " " + grupo[0]) > ancho)
  }

  lemma EndLine(width: Width, ancho: real, lineas: seq<string>, grupos: seq<seq<string>>, actual: string, grupo: seq<string>)
    requires Filling(width, ancho, lineas, grupos, actual, grupo) && actual != []
    ensures AllFit(width, ancho, lineas + [actual]) && Greedy(width, ancho, lineas + [actual], grupos + [grupo])
    ensures Flatten(grupos + [grupo]) == Flatten(grupos) + grupo
  {
    FlattenSnoc(grupos, grupo);
  }

  lemma AddPiece(width: Width, ancho: real, lineas: seq<string>, grupos: seq<seq<string>>, actual: string, grupo: seq<string>, p: string)
    requires Filling(width, ancho, lineas, grupos, actual, grupo) && p != []
    requires actual == [] ==> Fits(width, ancho, p)
    requires actual != [] ==> width(actual + " " + p) <= ancho
    ensures Filling(width, ancho, lineas, grupos, if actual == [] then p else actual + " " + p, grupo + [p])
  {
    if grupo != [] {
      JoinSnoc(grupo, p);
    } else {
      assert grupo + [p] == [p];
    }
  }

  lemma NewLine(width: Width, ancho: real, lineas: seq<string>, grupos: seq<seq<string>>, actual: string, grupo: seq<string>, p: string)
    requires Filling(width, ancho, lineas, grupos, actual, grupo) && actual != [] && p != []
    requires Fits(width, ancho, p) && width(actual + " " + p) > ancho
    ensures Filling(width, ancho, lineas + [actual], grupos + [grupo], p, [p])
    ensures Flatten(grupos + [grupo]) + [p] == Flatten(grupos) + grupo + [p]
  {
    EndLine(width, ancho, lineas, grupos, actual, grupo);
  }

  /** The body of the loop: the piece goes on the line, or starts the next one. */
  method Place(palabra: string, lineas: seq<string>, actual: string, width: Width, ancho: real,
               ghost grupos: seq<seq<string>>, ghost grupo: seq<string>)
    returns (lineas': seq<string>, actual': string, ghost grupos': seq<seq<string>>, ghost grupo': seq<string>)
    requires Filling(width, ancho, lineas, grupos, actual, grupo) && Fits(width, ancho, palabra)
    requires palabra == [] ==> actual == []
    ensures Filling(width, ancho, lineas', grupos', actual', grupo')
    ensures Flatten(grupos') + grupo' == Flatten(grupos) + grupo + (if palabra == [] then [] else [palabra])
  {
    var prueba := if actual != [] then actual + " " + palabra else palabra;
    if width(prueba) > ancho && actual != [] {
      NewLine(width, ancho, lineas, grupos, actual, grupo, palabra);
      lineas', grupos' := lineas + [actual], grupos + [grupo];
      actual', grupo' := palabra, [palabra];
    } else {
      lineas', grupos', grupo' := lineas, grupos, grupo;
      if palabra != [] {
        AddPiece(width, ancho, lineas, grupos, actual, grupo, palabra);
        Associate(Flatten(grupos), grupo, [palabra]);
        grupo' := grupo + [palabra];
      }
      actual' := prueba;
    }
  }

  /** The loop over the pieces. */
  method Fill(palabras: seq<string>, width: Width, ancho: real) returns (lineas: seq<string>, ghost grupos: seq<seq<string>>)
    requires AllFit(width, ancho, palabras) && NoEmptyPiece(palabras)
    ensures AllFit(width, ancho, lineas) && Greedy(width, ancho, lineas, grupos)
    ensures Flatten(grupos) == if Blank(palabras) then [] else palabras
  {
    lineas, grupos := [], [];
    var actual := "";
    ghost var grupo: seq<string> := [];
    for i := 0 to |palabras|
      invariant Filling(width, ancho, lineas, grupos, actual, grupo)
      invariant Flatten(grupos) + grupo == if Blank(palabras) then [] else palabras[..i]
    {
      FirstIsEmpty(palabras, i, Flatten(grupos), grupo);
      lineas, actual, grupos, grupo := Place(palabras[i], lineas, actual, width, ancho, grupos, grupo);
    }
    assert palabras[..|palabras|] == palabras;
    if actual != [] {
      EndLine(width, ancho, lineas, grupos, actual, grupo);
      lineas, grupos := lineas + [actual], grupos + [grupo];
    } else {
      assert Flatten(grupos) + [] == Flatten(grupos);
    }
  }

  lemma FirstIsEmpty(palabras: seq<string>, i: nat, done: seq<string>, grupo: seq<string>)
    requires i < |palabras| && NoEmptyPiece(palabras)
    requires done + grupo == if Blank(palabras) then [] else palabras[..i]
    ensures palabras[i] == [] ==> Blank(palabras) && grupo == []
    ensures (if Blank(palabras) then [] else palabras[..i + 1])
         == done + grupo + (if palabras[i] == [] then [] else [palabras[i]])
  {
    assert palabras[..i + 1] == palabras[..i] + [palabras[i]];
  }

  lemma FlattenSnoc(groups: seq<seq<string>>, g: seq<string>)
    ensures Flatten(groups + [g]) == Flatten(groups) + g
  {
    assert (groups + [g])[..|groups|] == groups;
  }

  /**
   * `partir`: every line fits the width unless it is one character that cannot, a line ends only where the next
   * piece would not have fitted, the lines hold the pieces of the words of the text and nothing else, and so they
   * keep all its characters but the spaces, in order.
   */
  method Partir(t: string, width: Width, ancho: real)
    returns (lineas: seq<string>, ghost grupos: seq<seq<string>>, ghost trozos: seq<seq<string>>)
    ensures AllFit(width, ancho, lineas)
    ensures Greedy(width, ancho, lineas, grupos)
    ensures AllPieced(width, ancho, Words(t), trozos)
    ensures Flatten(grupos) == if Blank(Words(t)) then [] else Flatten(trozos)
    ensures Strip(Concat(lineas)) == Strip(t)
  {
    var palabras;
    palabras, trozos := Pieces(t, width, ancho);
    lineas, grupos := Fill(palabras, width, ancho);
    FlattenKeeps(lineas, grupos);
    StripStrip(t);
    if Blank(palabras) {
      ConcatSnoc([], []);
      assert [] + [[]] == palabras;
    }
  }

  lemma {:induction false} StripStrip(s: string)
    ensures Strip(Strip(s)) == Strip(s)
    decreases |s|
  {
    if s != [] {
      StripStrip(s[..|s| - 1]);
      StripSnoc(Strip(s[..|s| - 1]), s[|s| - 1]);
      assert Strip(s[..|s| - 1]) + [] == Strip(s[..|s| - 1]);
    }
  }

  // ----- The words are the runs between spaces -----

  /** The last word with one character more. */
  function AddTo(words: seq<string>, c: char): seq<string>
    requires words != []
  {
    words[..|words| - 1] + [words[|words| - 1] + [c]]
  }

  /** The maximal runs of characters that are not spaces. */
  function Runs(t: string): (r: seq<string>)
    ensures t != [] && !IsSpace(t[|t| - 1]) ==> r != []
  {
    if t == [] then []
    else
      var before, c := Runs(t[..|t| - 1]), t[|t| - 1];
      if IsSpace(c) then before
      else if |t| > 1 && !IsSpace(t[|t| - 2]) then AddTo(before, c)
      else before + [[c]]
  }

  /** The empty words that a space at an end leaves there, before the text is trimmed. */
  function Head(t: string): seq<string> {
    if t != [] && IsSpace(t[0]) then [""] else []
  }

  function Tail(t: string): seq<string> {
    if t != [] && IsSpace(t[|t| - 1]) then [""] else []
  }

  function Padded(t: string): seq<string> {
    if t == [] then [""] else Head(t) + Runs(t) + Tail(t)
  }

  lemma SplitSnoc(s: string, c: char)
    ensures Split(s + [c]) == if c == ' ' then Split(s) + [""] else AddTo(Split(s), c)
  {
    assert (s + [c])[..|s|] == s;
  }

  lemma RunsGrow(t: string, c: char)
    requires t != [] && !IsSpace(c)
    ensures Runs(t + [c]) == if IsSpace(t[|t| - 1]) then Runs(t) + [[c]] else AddTo(Runs(t), c)
  {
    var all := t + [c];
    assert all[..|all| - 1] == t;
  }

  lemma GrowsRun(head: seq<string>, runs: seq<string>, c: char)
    requires runs != []
    ensures AddTo(head + runs + [], c) == head + AddTo(runs, c) + []
  {
    assert (head + runs + [])[..|head| + |runs| - 1] == head + runs[..|runs| - 1];
  }

  lemma StartsRun(head: seq<string>, runs: seq<string>, c: char)
    ensures AddTo(head + runs + [""], c) == head + (runs + [[c]]) + []
  {
    AddToLast(head + runs, "", c);
    assert [] + [c] == [c];
  }

  /** A character that is not a space goes to the run it continues, or starts one. */
  lemma PaddedGrows(t: string, c: char)
    requires t != [] && !IsSpace(c)
    ensures Padded(t) != [] && Padded(t + [c]) == AddTo(Padded(t), c)
  {
    RunsGrow(t, c);
    assert (t + [c])[0] == t[0];
    if IsSpace(t[|t| - 1]) {
      StartsRun(Head(t), Runs(t), c);
    } else {
      GrowsRun(Head(t), Runs(t), c);
    }
  }

  lemma PaddedSpace(t: string, c: char)
    requires IsSpace(c)
    ensures Padded(t + [c]) == if t != [] && IsSpace(t[|t| - 1]) then Padded(t) else Padded(t) + [""]
  {
    var all := t + [c];
    assert all[..|all| - 1] == t;
    assert Runs(all) == Runs(t);
    if t == [] {
      assert Padded(all) == [""] + [] + [""];
      assert [""] + [] + [""] == [""] + [""];
    } else {
      assert all[0] == t[0];
      var head := if IsSpace(t[0]) then [""] else [];
      assert head + Runs(t) + [] + [""] == head + Runs(t) + [""];
    }
  }

  lemma FirstRun(c: char)
    requires !IsSpace(c)
    ensures Padded([c]) == [[c]] && Split([] + [c]) == [[c]]
  {
    SplitSnoc([], c);
    assert Runs([c]) == [] + [[c]];
    assert [] + [c] == [c];
  }

  lemma {:induction false} SplitIsPadded(t: string)
    ensures Split(Collapse(t)) == Padded(t)
    decreases |t|
  {
    if t != [] {
      var init, c := t[..|t| - 1], t[|t| - 1];
      SplitIsPadded(init);
      assert t == init + [c];
      SplitSnoc(Collapse(init), if IsSpace(c) then ' ' else c);
      if IsSpace(c) {
        PaddedSpace(init, c);
      } else if init == [] {
        FirstRun(c);
      } else {
        PaddedGrows(init, c);
      }
    }
  }

  lemma AddToCons(w: string, words: seq<string>, c: char)
    requires words != []
    ensures AddTo([w] + words, c) == [w] + AddTo(words, c)
  {
    assert ([w] + words)[..|words|] == [w] + words[..|words| - 1];
  }

  lemma AddToLast(words: seq<string>, last: string, c: char)
    ensures AddTo(words + [last], c) == words + [last + [c]]
  {
    assert (words + [last])[..|words|] == words;
  }

  lemma SplitConsStep(init: string, c: char)
    requires Split([' '] + init) == [""] + Split(init)
    ensures Split([' '] + (init + [c])) == [""] + Split(init + [c])
  {
    SplitSnoc([' '] + init, c);
    SplitSnoc(init, c);
    AddToCons("", Split(init), c);
    Associate([""], Split(init), [""]);
    Associate([' '], init, [c]);
  }

  lemma SplitSpace()
    ensures Split([' '] + []) == [""] + Split([])
  {
    SplitSnoc([], ' ');
    assert [] + [' '] == [' '] + [];
  }

  lemma {:induction false} SplitCons(s: string)
    ensures Split([' '] + s) == [""] + Split(s)
    decreases |s|
  {
    if s == [] {
      SplitSpace();
    } else {
      SplitCons(s[..|s| - 1]);
      SplitConsStep(s[..|s| - 1], s[|s| - 1]);
      assert s == s[..|s| - 1] + [s[|s| - 1]];
    }
  }

  /** Spaces stand alone, and there is no other space than ' '. */
  ghost predicate Spaced(s: string) {
    && (forall i :: 0 < i < |s| ==> !(s[i - 1] == ' ' && s[i] == ' '))
    && forall i :: 0 <= i < |s| && IsSpace(s[i]) ==> s[i] == ' '
  }

  lemma {:induction false} CollapseSpaced(t: string)
    ensures var s := Collapse(t);
            && Spaced(s) && (t == [] <==> s == [])
            && (t != [] ==> (IsSpace(t[0]) <==> s[0] == ' ') && (IsSpace(t[|t| - 1]) <==> s[|s| - 1] == ' '))
    decreases |t|
  {
    if t != [] {
      var init := t[..|t| - 1];
      CollapseSpaced(init);
      if |t| > 1 {
        assert init[|init| - 1] == t[|t| - 2] && init[0] == t[0];
      } else {
        assert init == [] && Collapse(init) == [];
      }
    }
  }

  /** Trimming takes one space at most from each end. */
  lemma TrimsOne(s: string)
    requires Spaced(s)
    ensures TrimStart(s) == if s != [] && s[0] == ' ' then s[1..] else s
    ensures TrimEnd(s) == if s != [] && s[|s| - 1] == ' ' then s[..|s| - 1] else s
  {
  }

  lemma SpacedTail(s: string)
    requires Spaced(s) && s != []
    ensures Spaced(s[1..])
  {
    var u := s[1..];
    forall i | 0 < i < |u| ensures !(u[i - 1] == ' ' && u[i] == ' ') {
      assert u[i - 1] == s[i] && u[i] == s[i + 1];
    }
  }

  lemma Cancel(a: seq<string>, b: seq<string>, last: string)
    ensures a + [last] == b + [last] ==> a == b
  {
    if a + [last] == b + [last] {
      assert |a| == |b| && (a + [last])[..|a|] == a && (b + [last])[..|b|] == b;
    }
  }

  lemma DropsLast(u: string, runs: seq<string>)
    requires u != [] && u[|u| - 1] == ' ' && Split(u) == runs + [""]
    ensures Split(u[..|u| - 1]) == runs
  {
    Cancel(Split(u[..|u| - 1]), runs, "");
  }

  /** The words of the text, once its start is trimmed. */
  lemma StartTrimmed(t: string, s: string, u: string)
    requires t != [] && s != [] && Split(s) == Padded(t) && (s[0] == ' ' <==> IsSpace(t[0]))
    requires u == (if s[0] == ' ' then s[1..] else s) && (s[0] == ' ' ==> Split(s) == [""] + Split(u))
    ensures Split(u) == Runs(t) + Tail(t)
  {
    Peel(Runs(t), Tail(t), Split(u));
  }

  lemma Peel(runs: seq<string>, tail: seq<string>, rest: seq<string>)
    ensures [""] + rest == [""] + runs + tail ==> rest == runs + tail
    ensures [] + runs + tail == runs + tail
  {
    if [""] + rest == [""] + runs + tail {
      assert ([""] + rest)[1..] == rest && ([""] + runs + tail)[1..] == runs + tail;
    }
  }

  lemma Ends(t: string, s: string, u: string)
    requires Split(s) == Padded(t) && (t == [] <==> s == [])
    requires t != [] ==> (s[0] == ' ' <==> IsSpace(t[0])) && (s[|s| - 1] == ' ' <==> IsSpace(t[|t| - 1]))
    requires u == (if s != [] && s[0] == ' ' then s[1..] else s) && (s != [] && s[0] == ' ' ==> Split(s) == [""] + Split(u))
    requires TrimEnd(u) == if u != [] && u[|u| - 1] == ' ' then u[..|u| - 1] else u
    ensures Split(TrimEnd(u)) == if Runs(t) == [] then [""] else Runs(t)
  {
    if t != [] {
      StartTrimmed(t, s, u);
      if u == [] {
        OnlyEmpty(Runs(t));
      } else {
        assert u[|u| - 1] == s[|s| - 1];
        EndTrimmed(t, u);
      }
    }
  }

  lemma TrimsBoth(s: string)
    requires Spaced(s)
    ensures var u := TrimStart(s);
            && u == (if s != [] && s[0] == ' ' then s[1..] else s)
            && (s != [] && s[0] == ' ' ==> Split(s) == [""] + Split(u))
            && TrimEnd(u) == if u != [] && u[|u| - 1] == ' ' then u[..|u| - 1] else u
  {
    TrimsOne(s);
    if s != [] && s[0] == ' ' {
      SpacedTail(s);
      SplitCons(s[1..]);
      assert [' '] + s[1..] == s;
    }
    TrimsOne(TrimStart(s));
  }

  lemma EndTrimmed(t: string, u: string)
    requires t != [] && u != [] && Split(u) == Runs(t) + Tail(t) && (u[|u| - 1] == ' ' <==> IsSpace(t[|t| - 1]))
    ensures Split(if u[|u| - 1] == ' ' then u[..|u| - 1] else u) == Runs(t) && Runs(t) != []
  {
    if u[|u| - 1] == ' ' {
      DropsLast(u, Runs(t));
      assert |Split(u[..|u| - 1])| >= 1;
    } else {
      assert Runs(t) + [] == Runs(t);
    }
  }

  lemma OnlyEmpty(runs: seq<string>)
    requires runs + [""] == [""]
    ensures runs == []
  {
    assert |runs + [""]| == |runs| + 1;
  }

  /** The words of a text are its runs, in order; a text without any has the one empty word. */
  lemma WordsAreTheRuns(t: string)
    ensures Words(t) == if Runs(t) == [] then [""] else Runs(t)
  {
    var s := Collapse(t);
    CollapseSpaced(t);
    SplitIsPadded(t);
    TrimsBoth(s);
    Ends(t, s, TrimStart(s));
  }

  lemma {:induction false} RunsNotEmpty(t: string)
    ensures forall i :: 0 <= i < |Runs(t)| ==> Runs(t)[i] != []
    decreases |t|
  {
    if t != [] {
      RunsNotEmpty(t[..|t| - 1]);
    }
  }

  lemma WordsNotEmpty(t: string)
    ensures Blank(Words(t)) || forall i :: 0 <= i < |Words(t)| ==> Words(t)[i] != []
  {
    WordsAreTheRuns(t);
    RunsNotEmpty(t);
  }
}
