/** Writing the problem in DIMACS CNF and reading it back. */
module Dimacs {
  import opened Sat
  import opened Wrappers

  // ---------------------------------------------------------------- reading characters

  predicate Space(c: char) {
    9 as char <= c <= 13 as char || c == ' '
  }

  predicate Digit(c: char) {
    '0' <= c <= '9'
  }

  function DigitValue(c: char): nat
    requires Digit(c)
  {
    c as int - '0' as int
  }

  /** The input after leading white space. */
  function AfterSpace(s: string): (r: string)
    ensures |r| <= |s|
  {
    if s != "" && Space(s[0]) then AfterSpace(s[1..]) else s
  }

  /** The input after the current line. */
  function AfterLine(s: string): (r: string)
    ensures |r| <= |s|
  {
    if s == "" then s else if s[0] == '\n' then s[1..] else AfterLine(s[1..])
  }

  /** Read digits onto val. */
  function Number(s: string, val: nat): (r: (nat, string))
    ensures |r.1| <= |s|
  {
    if s != "" && Digit(s[0]) then Number(s[1..], 10 * val + DigitValue(s[0])) else (val, s)
  }

  function WithSign(neg: bool, n: nat): int {
    if neg then 0 - n else n
  }

  /** An integer and the input after it; none where the reader stops with an error. */
  function Integer(s: string): (r: Option<(int, string)>)
    ensures r.Some? ==> |r.value.1| < |s|
  {
    var t := AfterSpace(s);
    var neg := t != "" && t[0] == '-';
    var u := if t != "" && (t[0] == '-' || t[0] == '+') then t[1..] else t;
    if u == "" || !Digit(u[0]) then None
    else
      var (val, rest) := Number(u, 0);
      assert Number(u, 0) == Number(u[1..], DigitValue(u[0]));
      Some((WithSign(neg, val), rest))
  }

  function LitOf(x: int): Lit
    requires x != 0
  {
    if x > 0 then Lit(x - 1, false) else Lit(-x - 1, true)
  }

  /** The literals up to the closing zero. */
  function ClauseOf(s: string): (r: Option<(seq<Lit>, string)>)
    ensures r.Some? ==> |r.value.1| < |s|
    decreases |s|
  {
    match Integer(s)
    case None => None
    case Some((x, rest)) =>
      if x == 0 then Some(([], rest))
      else
        match ClauseOf(rest)
        case None => None
        case Some((c, last)) => Some(([LitOf(x)] + c, last))
  }

  /** The header's two numbers (the last header counts) and the clauses read. */
  datatype Cnf = Cnf(vars: int, clauses: int, body: seq<seq<Lit>>)

  function Document(s: string, sofar: Cnf): Option<Cnf>
    decreases |s|
  {
    var t := AfterSpace(s);
    if t == "" then Some(sofar)
    else if t[0] == 'p' then
      if "p cnf" <= t then
        match Integer(t[5..])
        case None => None
        case Some((v, r)) =>
          match Integer(r)
          case None => None
          case Some((n, rest)) => Document(rest, sofar.(vars := v, clauses := n))
      else None
    else if t[0] == 'c' then
      assert |AfterLine(t)| <= |AfterLine(t[1..])| <= |t| - 1;
      Document(AfterLine(t), sofar)
    else
      match ClauseOf(t)
      case None => None
      case Some((c, rest)) => Document(rest, sofar.(body := sofar.body + [c]))
  }

  // ---------------------------------------------------------------- what is accepted as an integer

  predicate Spaces(ws: string) {
    forall i :: 0 <= i < |ws| ==> Space(ws[i])
  }

  predicate Digits(ds: string) {
    forall i :: 0 <= i < |ds| ==> Digit(ds[i])
  }

  /** The number that digits denote when written after those of v. */
  function Onto(v: nat, ds: string): nat
    requires Digits(ds)
  {
    if ds == "" then v else 10 * Onto(v, ds[..|ds| - 1]) + DigitValue(ds[|ds| - 1])
  }

  /** White space, perhaps a sign, at least one digit, and then no further digit. */
  ghost predicate Spelled(ws: string, sign: string, ds: string, rest: string) {
    && Spaces(ws) && sign in ["", "+", "-"] && ds != "" && Digits(ds) && (rest == "" || !Digit(rest[0]))
  }

  lemma {:induction false} OntoFirst(v: nat, ds: string)
    requires Digits(ds) && ds != ""
    ensures Digits(ds[1..]) && Onto(v, ds) == Onto(10 * v + DigitValue(ds[0]), ds[1..])
  {
    if |ds| > 1 {
      var n := |ds| - 1;
      OntoFirst(v, ds[..n]);
      assert ds[..n][1..] == ds[1..][..n - 1] && ds[1..][n - 1] == ds[n];
    }
  }

  lemma {:induction false} NumberOnto(ds: string, rest: string, v: nat)
    requires Digits(ds) && (rest == "" || !Digit(rest[0]))
    ensures Number(ds + rest, v) == (Onto(v, ds), rest)
    decreases |ds|
  {
    if ds == "" {
      assert ds + rest == rest;
    } else {
      OntoFirst(v, ds);
      assert (ds + rest)[1..] == ds[1..] + rest;
      NumberOnto(ds[1..], rest, 10 * v + DigitValue(ds[0]));
    }
  }

  lemma {:induction false} SpacesSkipped(ws: string, t: string)
    requires Spaces(ws) && (t == "" || !Space(t[0]))
    ensures AfterSpace(ws + t) == t
    decreases |ws|
  {
    if ws == "" {
      assert ws + t == t;
    } else {
      assert (ws + t)[1..] == ws[1..] + t;
      SpacesSkipped(ws[1..], t);
    }
  }

  /** Every integer in this form is read, with its value and what follows it. */
  lemma IntegerSpelled(ws: string, sign: string, ds: string, rest: string)
    requires Spelled(ws, sign, ds, rest)
    ensures Integer(ws + sign + ds + rest) == Some((WithSign(sign == "-", Onto(0, ds)), rest))
  {
    var t := sign + (ds + rest);
    assert ws + sign + ds + rest == ws + t;
    assert t[0] == if sign == "" then ds[0] else sign[0];
    SpacesSkipped(ws, t);
    assert sign != "" ==> t[1..] == ds + rest;
    assert sign == "" ==> t == ds + rest;
    NumberOnto(ds, rest, 0);
  }

  lemma {:induction false} SpacesSplit(s: string) returns (ws: string)
    ensures Spaces(ws) && s == ws + AfterSpace(s)
    decreases |s|
  {
    if s != "" && Space(s[0]) {
      var tail := SpacesSplit(s[1..]);
      ws := [s[0]] + tail;
      assert s == [s[0]] + s[1..];
    } else {
      ws := "";
    }
  }

  lemma {:induction false} NumberSplit(s: string, v: nat) returns (ds: string)
    ensures Digits(ds) && s == ds + Number(s, v).1 && (s != "" && Digit(s[0]) ==> ds != "")
    ensures var rest := Number(s, v).1; rest == "" || !Digit(rest[0])
    decreases |s|
  {
    if s != "" && Digit(s[0]) {
      var tail := NumberSplit(s[1..], 10 * v + DigitValue(s[0]));
      ds := [s[0]] + tail;
      assert s == [s[0]] + s[1..];
    } else {
      ds := "";
    }
  }

  lemma SignSplit(t: string) returns (sign: string, u: string)
    requires t != ""
    ensures sign in ["", "+", "-"] && t == sign + u && u == if t[0] == '-' || t[0] == '+' then t[1..] else t
  {
    if t[0] == '-' || t[0] == '+' {
      sign, u := [t[0]], t[1..];
      assert t == [t[0]] + t[1..];
    } else {
      sign, u := "", t;
    }
  }

  lemma FourParts(a: string, b: string, c: string, d: string)
    ensures a + (b + (c + d)) == a + b + c + d
  {
  }

  lemma IntegerSplit(s: string) returns (ws: string, sign: string, ds: string, rest: string)
    requires Integer(s).Some?
    ensures Spelled(ws, sign, ds, rest) && s == ws + sign + ds + rest
  {
    hide Number, AfterSpace, Spaces, Digits;
    ws := SpacesSplit(s);
    var t := AfterSpace(s);
    var u;
    sign, u := SignSplit(t);
    ds := NumberSplit(u, 0);
    rest := Number(u, 0).1;
    FourParts(ws, sign, ds, rest);
  }

  /** Nothing else is: whatever is read has this form, and everything without it is an error. */
  lemma IntegerOnly(s: string)
    ensures Integer(s).Some? <==>
            exists ws, sign, ds, rest :: Spelled(ws, sign, ds, rest) && s == ws + sign + ds + rest
  {
    hide Integer, Spelled, Onto;
    if exists ws, sign, ds, rest :: Spelled(ws, sign, ds, rest) && s == ws + sign + ds + rest {
      var ws, sign, ds, rest :| Spelled(ws, sign, ds, rest) && s == ws + sign + ds + rest;
      IntegerSpelled(ws, sign, ds, rest);
    }
    if Integer(s).Some? {
      var ws, sign, ds, rest := IntegerSplit(s);
      assert Spelled(ws, sign, ds, rest);
    }
  }

  // ---------------------------------------------------------------- the reader's loops

  method SkipWhitespace(s: string) returns (r: string)
    ensures r == AfterSpace(s)
  {
    r := s;
    while r != "" && Space(r[0])
      invariant AfterSpace(r) == AfterSpace(s)
      decreases |r|
    {
      r := r[1..];
    }
  }

  method SkipLine(s: string) returns (r: string)
    ensures r == AfterLine(s)
  {
    r := s;
    while r != ""
      invariant AfterLine(r) == AfterLine(s)
      decreases |r|
    {
      if r[0] == '\n' {
        return r[1..];
      }
      r := r[1..];
    }
  }

  method ParseInt(s: string) returns (res: Option<(int, string)>)
    ensures res == Integer(s)
  {
    var r := SkipWhitespace(s);
    var neg := false;
    if r != "" && r[0] == '-' {
      neg, r := true, r[1..];
    } else if r != "" && r[0] == '+' {
      r := r[1..];
    }
    if r == "" || !Digit(r[0]) {
      return None;
    }
    var val: nat := 0;
    ghost var u := r;
    while r != "" && Digit(r[0])
      invariant Number(r, val) == Number(u, 0)
      decreases |r|
    {
      val := 10 * val + DigitValue(r[0]);
      r := r[1..];
    }
    res := Some((WithSign(neg, val), r));
  }

  /** Does the input continue with the text? Characters are consumed as they match. */
  method EagerMatch(s: string, text: string) returns (b: bool, r: string)
    ensures b <==> text <= s
    ensures b ==> r == s[|text|..]
  {
    r := s;
    var i := 0;
    while i < |text|
      invariant 0 <= i <= |text| && i <= |s| && text[..i] == s[..i] && r == s[i..]
    {
      if r == "" || text[i] != r[0] {
        return false, r;
      }
      r := r[1..];
      i := i + 1;
    }
    b := true;
  }

  /** Add variables until v exists. */
  method GrowTo(v: nat, nVars0: nat) returns (nVars: nat)
    ensures nVars == if v >= nVars0 then v + 1 else nVars0
  {
    nVars := nVars0;
    while v >= nVars
      invariant nVars0 <= nVars <= (if v >= nVars0 then v + 1 else nVars0)
    {
      nVars := nVars + 1;
    }
  }

  /** Literals put before a clause read from what follows. */
  ghost function Prepend(lits: seq<Lit>, r: Option<(seq<Lit>, string)>): Option<(seq<Lit>, string)> {
    match r
    case None => None
    case Some((c, last)) => Some((lits + c, last))
  }

  lemma PrependOne(lits: seq<Lit>, s: string)
    requires Integer(s).Some? && Integer(s).value.0 != 0
    ensures var (x, rest) := Integer(s).value;
            Prepend(lits, ClauseOf(s)) == Prepend(lits + [LitOf(x)], ClauseOf(rest))
  {
    hide Integer;
    var (x, rest) := Integer(s).value;
    var c := ClauseOf(rest);
    if c.Some? {
      assert lits + ([LitOf(x)] + c.value.0) == lits + [LitOf(x)] + c.value.0;
    }
  }

  /** Read a clause, adding variables to the solver as they appear. */
  method ReadClause(s: string, nVars0: nat) returns (res: Option<(seq<Lit>, string)>, nVars: nat)
    ensures res == ClauseOf(s)
    ensures res.Some? ==> nVars == MaxVar(res.value.0, nVars0)
  {
    hide Integer, MaxVar;
    nVars := nVars0;
    var lits: seq<Lit> := [];
    var r := s;
    assert MaxVar([], nVars0) == nVars0 by {
      MaxVarEmpty(nVars0);
    }
    PrependNothing(ClauseOf(s));
    while true
      invariant ClauseOf(s) == Prepend(lits, ClauseOf(r)) && nVars == MaxVar(lits, nVars0)
      decreases |r|
    {
      var x := ParseInt(r);
      if x.None? {
        return None, nVars;
      }
      if x.value.0 == 0 {
        assert lits + [] == lits;
        return Some((lits, x.value.1)), nVars;
      }
      PrependOne(lits, r);
      var p := LitOf(x.value.0);
      MaxVarPush(lits, p, nVars0);
      IntegerShorter(r);
      nVars := GrowTo(p.v, nVars);
      lits := lits + [p];
      r := x.value.1;
    }
  }

  lemma PrependNothing(r: Option<(seq<Lit>, string)>)
    ensures Prepend([], r) == r
  {
    if r.Some? {
      assert [] + r.value.0 == r.value.0;
    }
  }

  lemma IntegerShorter(s: string)
    ensures Integer(s).Some? ==> |Integer(s).value.1| < |s|
  {
  }

  lemma MaxVarEmpty(n: nat)
    ensures MaxVar([], n) == n
  {
  }

  /** One more than the largest variable, or n if that is larger. */
  function MaxVar(c: seq<Lit>, n: nat): nat {
    if c == [] then n
    else
      var m := MaxVar(c[..|c| - 1], n);
      if c[|c| - 1].v >= m then c[|c| - 1].v + 1 else m
  }

  lemma MaxVarPush(c: seq<Lit>, p: Lit, n: nat)
    ensures MaxVar(c + [p], n) == if p.v >= MaxVar(c, n) then p.v + 1 else MaxVar(c, n)
  {
    assert (c + [p])[..|c|] == c;
  }

  function MaxVars(cs: seq<seq<Lit>>, n: nat): nat {
    if cs == [] then n else MaxVar(cs[|cs| - 1], MaxVars(cs[..|cs| - 1], n))
  }

  /** Read a document: the header, the clauses in order, and the number of variables they need. */
  method ParseDimacs(s: string) returns (res: Option<Cnf>, nVars: nat)
    ensures res == Document(s, Cnf(0, 0, []))
    ensures res.Some? ==> nVars == MaxVars(res.value.body, 0)
  {
    var cnf := Cnf(0, 0, []);
    nVars := 0;
    var r := s;
    while true
      invariant Document(s, Cnf(0, 0, [])) == Document(r, cnf) && nVars == MaxVars(cnf.body, 0)
      decreases |r|
    {
      ghost var before := r;
      r := SkipWhitespace(r);
      if r == "" {
        return Some(cnf), nVars;
      }
      if r[0] == 'p' {
        var b;
        ghost var t := r;
        b, r := EagerMatch(r, "p cnf");
        if !b {
          return None, nVars;
        }
        var v := ParseInt(r);
        if v.None? {
          return None, nVars;
        }
        var n := ParseInt(v.value.1);
        if n.None? {
          return None, nVars;
        }
        cnf := cnf.(vars := v.value.0, clauses := n.value.0);
        r := n.value.1;
      } else if r[0] == 'c' {
        assert |AfterLine(r)| <= |AfterLine(r[1..])| <= |r| - 1;
        r := SkipLine(r);
      } else {
        var c;
        c, nVars := ReadClause(r, nVars);
        if c.None? {
          return None, nVars;
        }
        assert (cnf.body + [c.value.0])[..|cnf.body|] == cnf.body;
        cnf := cnf.(body := cnf.body + [c.value.0]);
        r := c.value.1;
      }
    }
  }

  // ---------------------------------------------------------------- the text written

  /** A number in decimal, as `%d` prints it. */
  function Decimal(n: nat): (s: string)
    ensures s != "" && Digit(s[0])
  {
    if n < 10 then [('0' as int + n) as char] else Decimal(n / 10) + [('0' as int + n % 10) as char]
  }

  function LitText(p: Lit): string {
    (if p.neg then "-" else "") + Decimal(p.v + 1) + " "
  }

  function LitsText(c: seq<Lit>): string {
    if c == [] then "" else LitText(c[0]) + LitsText(c[1..])
  }

  function ClauseText(c: seq<Lit>): string {
    LitsText(c) + "0\n"
  }

  function BodyText(cs: seq<seq<Lit>>): string {
    if cs == [] then "" else ClauseText(cs[0]) + BodyText(cs[1..])
  }

  function HeaderText(vars: nat, clauses: nat): string {
    "p cnf " + Decimal(vars) + " " + Decimal(clauses) + "\n"
  }

  // ---------------------------------------------------------------- reading what was written

  lemma {:induction false} NumberDecimal(n: nat, rest: string)
    ensures Number(Decimal(n) + rest, 0) == Number(rest, n)
  {
    var d := ('0' as int + n % 10) as char;
    if n < 10 {
      assert (Decimal(n) + rest)[1..] == rest;
    } else {
      assert Decimal(n) + rest == Decimal(n / 10) + ([d] + rest);
      NumberDecimal(n / 10, [d] + rest);
      assert ([d] + rest)[1..] == rest;
    }
  }

  /** Digits at the front are read as a number. */
  lemma IntegerPlain(body: string, n: nat, rest: string)
    requires body != "" && Digit(body[0]) && Number(body, 0) == (n, rest)
    ensures Integer(body) == Some((WithSign(false, n), rest))
    ensures Integer(['-'] + body) == Some((WithSign(true, n), rest))
  {
    hide Number;
    assert AfterSpace(body) == body && AfterSpace(['-'] + body) == ['-'] + body;
    assert (['-'] + body)[1..] == body;
  }

  /** A printed number followed by white space is read back. */
  lemma IntegerDecimal(n: nat, neg: bool, c: char, rest: string)
    requires !Digit(c)
    ensures Integer((if neg then "-" else "") + Decimal(n) + [c] + rest) == Some((WithSign(neg, n), [c] + rest))
  {
    hide *;
    var body := Decimal(n) + ([c] + rest);
    DecimalRead(n, c, rest);
    IntegerPlain(body, n, [c] + rest);
    if neg {
      assert "-" + Decimal(n) + [c] + rest == ['-'] + body;
    } else {
      assert "" + Decimal(n) + [c] + rest == body;
    }
  }

  lemma DecimalRead(n: nat, c: char, rest: string)
    requires !Digit(c)
    ensures var body := Decimal(n) + ([c] + rest);
            body != "" && Digit(body[0]) && Number(body, 0) == (n, [c] + rest)
  {
    hide Digit;
    NumberDecimal(n, [c] + rest);
    assert (Decimal(n) + ([c] + rest))[0] == Decimal(n)[0];
  }

  lemma IntegerSpaced(c: char, s: string)
    requires Space(c)
    ensures Integer([c] + s) == Integer(s)
  {
    assert ([c] + s)[1..] == s;
  }

  /** The text of the first literal of a clause and what follows it. */
  lemma ClauseTextSplit(c: seq<Lit>, rest: string)
    requires c != []
    ensures ClauseText(c) + rest ==
            (if c[0].neg then "-" else "") + Decimal(c[0].v + 1) + [' '] + (ClauseText(c[1..]) + rest)
  {
  }

  /** A printed clause is read back, also after a space. */
  lemma {:induction false} ClauseRead(c: seq<Lit>, rest: string)
    ensures ClauseOf(ClauseText(c) + rest) == Some((c, "\n" + rest))
    ensures ClauseOf([' '] + (ClauseText(c) + rest)) == Some((c, "\n" + rest))
  {
    hide Integer, Decimal;
    var text := ClauseText(c) + rest;
    IntegerSpaced(' ', text);
    if c == [] {
      ZeroText(rest);
      IntegerDecimal(0, false, '\n', rest);
    } else {
      hide ClauseText;
      var p, tail := c[0], ClauseText(c[1..]) + rest;
      ClauseRead(c[1..], rest);
      ClauseTextSplit(c, rest);
      IntegerDecimal(p.v + 1, p.neg, ' ', tail);
      assert c == [p] + c[1..];
      ClauseFirst(c, text, tail);
      ClauseFirst(c, [' '] + text, tail);
    }
  }

  lemma ZeroText(rest: string)
    ensures ClauseText([]) + rest == "" + Decimal(0) + ['\n'] + rest
  {
  }

  /** Reading one literal and then the rest of the clause. */
  lemma ClauseFirst(c: seq<Lit>, text: string, tail: string)
    requires c != []
    requires Integer(text) == Some((WithSign(c[0].neg, c[0].v + 1), [' '] + tail))
    ensures ClauseOf(text) ==
            match ClauseOf([' '] + tail) { case None => None case Some((d, last)) => Some(([c[0]] + d, last)) }
  {
  }

  /** The first character of a printed clause is a sign or a digit. */
  lemma ClauseStart(c: seq<Lit>, rest: string)
    ensures var t := ClauseText(c) + rest; t != "" && (t[0] == '-' || Digit(t[0]))
  {
    if c != [] {
      assert LitText(c[0]) != "";
      assert (ClauseText(c) + rest)[0] == LitText(c[0])[0];
    }
  }

  /** White space before a printed clause is skipped, and the clause's text is not a header or a comment. */
  lemma ClauseAhead(c: seq<Lit>, rest: string)
    ensures var t := ClauseText(c) + rest;
            AfterSpace("\n" + t) == t && t != "" && t[0] != 'p' && t[0] != 'c'
  {
    var t := ClauseText(c) + rest;
    ClauseStart(c, rest);
    assert ("\n" + t)[1..] == t;
  }

  /** The text after the header's name. */
  lemma HeaderSplit(vars: nat, n: nat, body: string)
    ensures var s := HeaderText(vars, n) + body;
            && "p cnf" <= s && AfterSpace(s) == s && s[0] == 'p'
            && s[5..] == [' '] + ("" + Decimal(vars) + [' '] + ("" + Decimal(n) + ['\n'] + body))
  {
    hide Decimal;
    var s := HeaderText(vars, n) + body;
    var tail := [' '] + ("" + Decimal(vars) + [' '] + ("" + Decimal(n) + ['\n'] + body));
    assert s == "p cnf" + tail;
    assert s[..5] == "p cnf" && s[5..] == tail;
  }

  // ---------------------------------------------------------------- comments

  /** A line of a document: a comment, or a clause. */
  datatype Line = Note(text: string) | Row(lits: seq<Lit>)

  function LineText(l: Line): string {
    match l
    case Note(text) => "c" + text + "\n"
    case Row(c) => ClauseText(c)
  }

  function LinesText(ls: seq<Line>): string {
    if ls == [] then "" else LineText(ls[0]) + LinesText(ls[1..])
  }

  /** The clauses among the lines, in order. */
  function Rows(ls: seq<Line>): seq<seq<Lit>> {
    if ls == [] then [] else (if ls[0].Row? then [ls[0].lits] else []) + Rows(ls[1..])
  }

  /** Every comment is on one line. */
  ghost predicate OneLine(ls: seq<Line>) {
    forall i :: 0 <= i < |ls| && ls[i].Note? ==> '\n' !in ls[i].text
  }

  lemma {:induction false} LineSkipped(text: string, rest: string)
    requires '\n' !in text
    ensures AfterLine(text + "\n" + rest) == rest
  {
    if text == "" {
      assert ("\n" + rest)[1..] == rest && text + "\n" + rest == "\n" + rest;
    } else {
      assert text[0] != '\n';
      assert (text + "\n" + rest)[1..] == text[1..] + "\n" + rest;
      LineSkipped(text[1..], rest);
    }
  }

  /** A comment line and the end of the line before it are skipped. */
  lemma NoteSkipped(text: string, rest: string, sofar: Cnf)
    requires '\n' !in text
    ensures Document("c" + text + "\n" + rest, sofar) == Document(rest, sofar)
    ensures Document("\n" + ("c" + text + "\n" + rest), sofar) == Document(rest, sofar)
  {
    var t := "c" + text + "\n" + rest;
    assert t == ("c" + text) + "\n" + rest && '\n' !in "c" + text;
    LineSkipped("c" + text, rest);
    assert ("\n" + t)[1..] == t;
    assert AfterSpace(t) == t && AfterSpace("\n" + t) == t;
  }

  /** An end of line at the start of what is left makes no difference. */
  lemma LineEndSkipped(s: string, sofar: Cnf)
    ensures Document("\n" + s, sofar) == Document(s, sofar)
  {
    assert ("\n" + s)[1..] == s;
    assert AfterSpace("\n" + s) == AfterSpace(s);
  }

  lemma {:induction false} LinesRead(ls: seq<Line>, sofar: Cnf)
    requires OneLine(ls)
    ensures Document("\n" + LinesText(ls), sofar) == Some(sofar.(body := sofar.body + Rows(ls)))
    decreases |ls|
  {
    hide *;
    LinesStart(ls, sofar);
    if ls != [] {
      OneLineRest(ls);
      if ls[0].Note? {
        NoteRead(ls, sofar);
        LinesRead(ls[1..], sofar);
      } else {
        RowRead(ls, sofar);
        var next := sofar.(body := sofar.body + [ls[0].lits]);
        LinesRead(ls[1..], next);
        assert next.body + Rows(ls[1..]) == sofar.body + Rows(ls);
      }
    }
  }

  lemma LinesStart(ls: seq<Line>, sofar: Cnf)
    ensures ls == [] ==> Document("\n" + LinesText(ls), sofar) == Some(sofar.(body := sofar.body + Rows(ls)))
  {
    hide ClauseOf, Integer;
    assert ls == [] ==> ("\n" + LinesText(ls))[1..] == "";
    assert ls == [] ==> sofar.body + Rows(ls) == sofar.body;
  }

  lemma OneLineRest(ls: seq<Line>)
    requires OneLine(ls) && ls != []
    ensures OneLine(ls[1..]) && (ls[0].Note? ==> '\n' !in ls[0].text)
  {
  }

  lemma NoteRead(ls: seq<Line>, sofar: Cnf)
    requires ls != [] && ls[0].Note? && '\n' !in ls[0].text
    ensures Document("\n" + LinesText(ls), sofar) == Document("\n" + LinesText(ls[1..]), sofar)
    ensures Rows(ls) == Rows(ls[1..])
  {
    hide Document, AfterSpace, ClauseOf, Integer, ClauseText;
    NoteSkipped(ls[0].text, LinesText(ls[1..]), sofar);
    LineEndSkipped(LinesText(ls[1..]), sofar);
    assert [] + Rows(ls[1..]) == Rows(ls[1..]);
  }

  lemma RowRead(ls: seq<Line>, sofar: Cnf)
    requires ls != [] && ls[0].Row?
    ensures Document("\n" + LinesText(ls), sofar) ==
            Document("\n" + LinesText(ls[1..]), sofar.(body := sofar.body + [ls[0].lits]))
    ensures Rows(ls) == [ls[0].lits] + Rows(ls[1..])
  {
    hide AfterSpace, ClauseOf, Integer, ClauseText;
    var rest := LinesText(ls[1..]);
    ClauseAhead(ls[0].lits, rest);
    ClauseRead(ls[0].lits, rest);
  }

  function AsNotes(notes: seq<string>): seq<Line> {
    seq(|notes|, i requires 0 <= i < |notes| => Note(notes[i]))
  }

  lemma NotesText(notes: seq<string>, text: string)
    ensures LinesText(AsNotes(notes)) + text ==
            if notes == [] then text else "c" + notes[0] + "\n" + (LinesText(AsNotes(notes[1..])) + text)
  {
    if notes != [] {
      assert AsNotes(notes)[1..] == AsNotes(notes[1..]);
      var first, rest := "c" + notes[0] + "\n", LinesText(AsNotes(notes[1..]));
      assert LinesText(AsNotes(notes)) == first + rest;
      assert first + rest + text == first + (rest + text);
    } else {
      assert "" + text == text;
    }
  }

  /** A document with comments before the header and between the clauses gives its header and its clauses, in order. */
  lemma {:induction false} CommentedRead(notes: seq<string>, vars: nat, n: nat, ls: seq<Line>)
    requires OneLine(ls) && forall i :: 0 <= i < |notes| ==> '\n' !in notes[i]
    ensures Document(LinesText(AsNotes(notes)) + (HeaderText(vars, n) + LinesText(ls)), Cnf(0, 0, [])) ==
            Some(Cnf(vars, n, Rows(ls)))
    decreases |notes|
  {
    hide *;
    var text := HeaderText(vars, n) + LinesText(ls);
    NotesText(notes, text);
    if notes == [] {
      HeaderThenLines(vars, n, ls);
    } else {
      CommentedRead(notes[1..], vars, n, ls);
      NoteSkipped(notes[0], LinesText(AsNotes(notes[1..])) + text, Cnf(0, 0, []));
    }
  }

  lemma HeaderThenLines(vars: nat, n: nat, ls: seq<Line>)
    requires OneLine(ls)
    ensures Document(HeaderText(vars, n) + LinesText(ls), Cnf(0, 0, [])) == Some(Cnf(vars, n, Rows(ls)))
  {
    hide Integer, Decimal, AfterSpace, HeaderText, LinesText;
    HeaderSplit(vars, n, LinesText(ls));
    var second := "" + Decimal(n) + ['\n'] + LinesText(ls);
    var first := "" + Decimal(vars) + [' '] + second;
    IntegerSpaced(' ', first);
    IntegerDecimal(vars, false, ' ', second);
    IntegerSpaced(' ', second);
    IntegerDecimal(n, false, '\n', LinesText(ls));
    assert ['\n'] + LinesText(ls) == "\n" + LinesText(ls);
    LinesRead(ls, Cnf(vars, n, []));
    assert [] + Rows(ls) == Rows(ls);
  }

  function AsRows(cs: seq<seq<Lit>>): seq<Line> {
    seq(|cs|, i requires 0 <= i < |cs| => Row(cs[i]))
  }

  lemma {:induction false} RowsText(cs: seq<seq<Lit>>)
    ensures LinesText(AsRows(cs)) == BodyText(cs) && Rows(AsRows(cs)) == cs && OneLine(AsRows(cs))
  {
    if cs != [] {
      assert AsRows(cs)[1..] == AsRows(cs[1..]);
      RowsText(cs[1..]);
    }
  }

  /** Reading a printed document gives back its header and its clauses, in order. */
  lemma RoundTrip(vars: nat, cs: seq<seq<Lit>>)
    ensures Document(HeaderText(vars, |cs|) + BodyText(cs), Cnf(0, 0, [])) == Some(Cnf(vars, |cs|, cs))
  {
    RowsText(cs);
    HeaderThenLines(vars, |cs|, AsRows(cs));
  }

  // ---------------------------------------------------------------- the writer

  predicate Satisfied(c: seq<Lit>, assigns: seq<LBool>) {
    exists k :: 0 <= k < |c| && IsTrue(assigns, c[k])
  }

  /** The literals that are not false. */
  function NotFalse(c: seq<Lit>, assigns: seq<LBool>): seq<Lit> {
    if c == [] then []
    else NotFalse(c[..|c| - 1], assigns) + if IsFalse(assigns, c[|c| - 1]) then [] else [c[|c| - 1]]
  }

  /** What is written: the clauses not satisfied at level 0, without their false literals. */
  function Written(cs: seq<seq<Lit>>, assigns: seq<LBool>): seq<seq<Lit>> {
    if cs == [] then []
    else
      Written(cs[..|cs| - 1], assigns) +
      if Satisfied(cs[|cs| - 1], assigns) then [] else [NotFalse(cs[|cs| - 1], assigns)]
  }

  /** A numbering of variables: the variables seen, each with its own number below the count. */
  ghost predicate Numbering(m: map<Var, Var>) {
    && (forall x :: x in m ==> m[x] < |m|)
    && (forall x, y :: x in m && y in m && m[x] == m[y] ==> x == y)
    && (forall n :: 0 <= n < |m| ==> Used(m, n))
  }

  ghost predicate Used(m: map<Var, Var>, n: Var) {
    exists x :: x in m && m[x] == n
  }

  ghost predicate Knows(m: map<Var, Var>, c: seq<Lit>) {
    forall p :: p in c ==> p.v in m
  }

  ghost predicate KnowsAll(m: map<Var, Var>, cs: seq<seq<Lit>>) {
    forall c :: c in cs ==> Knows(m, c)
  }

  function Rename(m: map<Var, Var>, c: seq<Lit>): (r: seq<Lit>)
    requires Knows(m, c)
    ensures |r| == |c|
  {
    seq(|c|, i requires 0 <= i < |c| => assert c[i] in c; Lit(m[c[i].v], c[i].neg))
  }

  ghost function RenameAll(m: map<Var, Var>, cs: seq<seq<Lit>>): (r: seq<seq<Lit>>)
    requires KnowsAll(m, cs)
    ensures |r| == |cs|
  {
    seq(|cs|, i requires 0 <= i < |cs| => assert cs[i] in cs; Rename(m, cs[i]))
  }

  /** m2 numbers what m1 numbers in the same way. */
  ghost predicate Extends(m1: map<Var, Var>, m2: map<Var, Var>) {
    forall x :: x in m1 ==> x in m2 && m2[x] == m1[x]
  }

  /** `mapVar`: the number of x, a fresh one if it has none. */
  method MapVar(x: Var, m0: map<Var, Var>) returns (m: map<Var, Var>)
    requires Numbering(m0)
    ensures Numbering(m) && m.Keys == m0.Keys + {x} && Extends(m0, m)
  {
    m := m0;
    if x !in m {
      m := m[x := |m0|];
      assert m.Keys == m0.Keys + {x};
      assert |m.Keys| == |m0.Keys| + 1;
      forall n | 0 <= n < |m| ensures Used(m, n) {
        if n < |m0| {
          assert Used(m0, n);
          var y :| y in m0 && m0[y] == n;
          assert y in m && m[y] == n;
        } else {
          assert x in m && m[x] == n;
        }
      }
    }
  }

  /** Number the variables of the literals of one clause that are not false. */
  method MapClause(c: seq<Lit>, assigns: seq<LBool>, m0: map<Var, Var>) returns (m: map<Var, Var>)
    requires Numbering(m0)
    ensures Numbering(m) && m.Keys == m0.Keys + VarsOf(NotFalse(c, assigns)) && Extends(m0, m)
  {
    hide Numbering, VarsOf, NotFalse, Extends;
    m := m0;
    var j := 0;
    MapNothing(m0, c, assigns);
    while j < |c|
      invariant 0 <= j <= |c| && Numbering(m) && Extends(m0, m)
      invariant m.Keys == m0.Keys + VarsOf(NotFalse(c[..j], assigns))
    {
      NotFalseStep(c, assigns, j);
      if !IsFalse(assigns, c[j]) {
        VarsInPush(NotFalse(c[..j], assigns), c[j]);
        ghost var m1 := m;
        m := MapVar(c[j].v, m);
        ExtendsTransitive(m0, m1, m);
      } else {
        assert NotFalse(c[..j + 1], assigns) == NotFalse(c[..j], assigns);
      }
      j := j + 1;
    }
    assert c[..|c|] == c;
  }

  lemma NotFalseStep(c: seq<Lit>, assigns: seq<LBool>, j: nat)
    requires j < |c|
    ensures NotFalse(c[..j + 1], assigns) ==
            NotFalse(c[..j], assigns) + if IsFalse(assigns, c[j]) then [] else [c[j]]
  {
    assert c[..j + 1][..j] == c[..j];
  }

  lemma WrittenStep(cs: seq<seq<Lit>>, assigns: seq<LBool>, i: nat)
    requires i < |cs|
    ensures Written(cs[..i + 1], assigns) ==
            Written(cs[..i], assigns) + if Satisfied(cs[i], assigns) then [] else [NotFalse(cs[i], assigns)]
  {
    assert cs[..i + 1][..i] == cs[..i];
  }

  lemma MapNothing(m: map<Var, Var>, c: seq<Lit>, assigns: seq<LBool>)
    ensures Extends(m, m) && m.Keys == m.Keys + VarsOf(NotFalse(c[..0], assigns))
  {
  }

  lemma ExtendsTransitive(a: map<Var, Var>, b: map<Var, Var>, c: map<Var, Var>)
    requires Extends(a, b) && Extends(b, c)
    ensures Extends(a, c)
  {
  }

  lemma VarsInPush(c: seq<Lit>, p: Lit)
    ensures VarsOf(c + [p]) == VarsOf(c) + {p.v}
  {
  }

  ghost function VarsInAll(cs: seq<seq<Lit>>): set<Var> {
    set c, p | c in cs && p in c :: p.v
  }

  lemma VarsInAllPush(cs: seq<seq<Lit>>, c: seq<Lit>)
    ensures VarsInAll(cs + [c]) == VarsInAll(cs) + VarsOf(c)
  {
    assert forall d :: d in cs + [c] <==> d in cs || d == c;
    forall x | x in VarsInAll(cs) ensures x in VarsInAll(cs + [c]) {
      var d, p :| d in cs && p in d && p.v == x;
      assert d in cs + [c];
    }
    forall x | x in VarsOf(c) ensures x in VarsInAll(cs + [c]) {
      var p :| p in c && p.v == x;
      assert c in cs + [c];
    }
  }

  lemma {:induction false} LitsTextPush(c: seq<Lit>, p: Lit)
    ensures LitsText(c + [p]) == LitsText(c) + LitText(p)
  {
    if c == [] {
      assert [] + [p] == [p] && [p][1..] == [];
    } else {
      assert (c + [p])[1..] == c[1..] + [p];
      LitsTextPush(c[1..], p);
    }
  }

  lemma {:induction false} BodyTextPush(cs: seq<seq<Lit>>, c: seq<Lit>)
    ensures BodyText(cs + [c]) == BodyText(cs) + ClauseText(c)
  {
    if cs == [] {
      assert [] + [c] == [c] && [c][1..] == [];
    } else {
      assert (cs + [c])[1..] == cs[1..] + [c];
      BodyTextPush(cs[1..], c);
    }
  }

  /** Write the literals of one clause that are not false, under their numbers. */
  method WriteClause(c: seq<Lit>, assigns: seq<LBool>, m: map<Var, Var>) returns (text: string)
    requires Knows(m, NotFalse(c, assigns))
    ensures text == ClauseText(Rename(m, NotFalse(c, assigns)))
  {
    hide Numbering, LitText;
    text := "";
    var i := 0;
    while i < |c|
      invariant 0 <= i <= |c| && Knows(m, NotFalse(c[..i], assigns))
      invariant text == LitsText(Rename(m, NotFalse(c[..i], assigns)))
    {
      NotFalseStep(c, assigns, i);
      KnowsPrefix(m, c, assigns, i + 1);
      if !IsFalse(assigns, c[i]) {
        ghost var kept := NotFalse(c[..i], assigns);
        assert c[i] in kept + [c[i]];
        var p := Lit(m[c[i].v], c[i].neg);
        assert Rename(m, kept + [c[i]]) == Rename(m, kept) + [p];
        LitsTextPush(Rename(m, kept), p);
        text := text + LitText(p);
      } else {
        assert NotFalse(c[..i + 1], assigns) == NotFalse(c[..i], assigns);
      }
      i := i + 1;
    }
    assert c[..|c|] == c;
    text := text + "0\n";
  }

  lemma {:induction false} KnowsPrefix(m: map<Var, Var>, c: seq<Lit>, assigns: seq<LBool>, k: nat)
    requires k <= |c| && Knows(m, NotFalse(c, assigns))
    ensures Knows(m, NotFalse(c[..k], assigns))
  {
    if k == |c| {
      assert c[..k] == c;
    } else {
      assert forall p :: p in NotFalse(c[..|c| - 1], assigns) ==> p in NotFalse(c, assigns);
      KnowsPrefix(m, c[..|c| - 1], assigns, k);
      assert c[..|c| - 1][..k] == c[..k];
    }
  }

  /** Number the variables of all clauses to be written, and count those clauses. */
  method MapAll(cs: seq<seq<Lit>>, assigns: seq<LBool>) returns (m: map<Var, Var>, cnt: nat)
    ensures Numbering(m) && m.Keys == VarsInAll(Written(cs, assigns)) && cnt == |Written(cs, assigns)|
  {
    hide Numbering, NotFalse, Satisfied;
    m, cnt := map[], 0;
    NumberingEmpty();
    var i := 0;
    while i < |cs|
      invariant 0 <= i <= |cs| && Numbering(m) && m.Keys == VarsInAll(Written(cs[..i], assigns))
      invariant cnt == |Written(cs[..i], assigns)|
    {
      assert cs[..i + 1][..i] == cs[..i];
      if !Satisfied(cs[i], assigns) {
        VarsInAllPush(Written(cs[..i], assigns), NotFalse(cs[i], assigns));
        m := MapClause(cs[i], assigns, m);
        cnt := cnt + 1;
      }
      i := i + 1;
    }
    assert cs[..|cs|] == cs;
  }

  lemma NumberingEmpty()
    ensures Numbering(map[])
  {
  }

  lemma KnowsKeys(m: map<Var, Var>, cs: seq<seq<Lit>>)
    requires VarsInAll(cs) <= m.Keys
    ensures KnowsAll(m, cs)
  {
    forall c, p | c in cs && p in c ensures p.v in m {
      assert p.v in VarsInAll(cs);
    }
  }

  method WriteAll(cs: seq<seq<Lit>>, assigns: seq<LBool>, m: map<Var, Var>) returns (text: string)
    requires KnowsAll(m, Written(cs, assigns))
    ensures text == BodyText(RenameAll(m, Written(cs, assigns)))
  {
    hide NotFalse, Satisfied, Rename, ClauseText;
    text := "";
    var i := 0;
    while i < |cs|
      invariant 0 <= i <= |cs| && KnowsAll(m, Written(cs[..i], assigns))
      invariant text == BodyText(RenameAll(m, Written(cs[..i], assigns)))
    {
      WrittenStep(cs, assigns, i);
      WrittenPrefix(m, cs, assigns, i + 1);
      if !Satisfied(cs[i], assigns) {
        var line := WriteNext(cs[i], assigns, m, Written(cs[..i], assigns));
        text := text + line;
      } else {
        assert Written(cs[..i + 1], assigns) == Written(cs[..i], assigns);
      }
      i := i + 1;
    }
    assert cs[..|cs|] == cs;
  }

  method WriteNext(c: seq<Lit>, assigns: seq<LBool>, m: map<Var, Var>, ghost done: seq<seq<Lit>>) returns (line: string)
    requires KnowsAll(m, done + [NotFalse(c, assigns)])
    ensures KnowsAll(m, done)
    ensures BodyText(RenameAll(m, done + [NotFalse(c, assigns)])) == BodyText(RenameAll(m, done)) + line
  {
    ghost var d := NotFalse(c, assigns);
    assert d in done + [d];
    assert forall x :: x in done ==> x in done + [d];
    line := WriteClause(c, assigns, m);
    assert RenameAll(m, done + [d]) == RenameAll(m, done) + [Rename(m, d)];
    BodyTextPush(RenameAll(m, done), Rename(m, d));
  }

  lemma {:induction false} WrittenPrefix(m: map<Var, Var>, cs: seq<seq<Lit>>, assigns: seq<LBool>, k: nat)
    requires k <= |cs| && KnowsAll(m, Written(cs, assigns))
    ensures KnowsAll(m, Written(cs[..k], assigns))
  {
    hide NotFalse, Satisfied, Knows;
    if k == |cs| {
      assert cs[..k] == cs;
    } else {
      assert forall c :: c in Written(cs[..|cs| - 1], assigns) ==> c in Written(cs, assigns);
      WrittenPrefix(m, cs[..|cs| - 1], assigns, k);
      assert cs[..|cs| - 1][..k] == cs[..k];
    }
  }

  /** The assumptions as clauses of one literal. */
  function Units(ps: seq<Lit>): (r: seq<seq<Lit>>)
    ensures |r| == |ps|
  {
    seq(|ps|, i requires 0 <= i < |ps| => [ps[i]])
  }

  lemma VarsInUnits(ps: seq<Lit>)
    ensures VarsInAll(Units(ps)) == VarsOf(ps)
  {
    forall p | p in ps ensures p.v in VarsInAll(Units(ps)) {
      var i :| 0 <= i < |ps| && ps[i] == p;
      assert Units(ps)[i] in Units(ps) && p in Units(ps)[i];
    }
  }

  lemma VarsInAllJoin(cs: seq<seq<Lit>>, ds: seq<seq<Lit>>)
    ensures VarsInAll(cs + ds) == VarsInAll(cs) + VarsInAll(ds)
  {
    assert forall c :: c in cs + ds <==> c in cs || c in ds;
  }

  lemma RenameExtends(m1: map<Var, Var>, m2: map<Var, Var>, cs: seq<seq<Lit>>)
    requires Extends(m1, m2) && KnowsAll(m1, cs)
    ensures KnowsAll(m2, cs) && RenameAll(m2, cs) == RenameAll(m1, cs)
  {
    forall i | 0 <= i < |cs| ensures Knows(m2, cs[i]) && Rename(m2, cs[i]) == Rename(m1, cs[i]) {
      assert cs[i] in cs;
      forall k | 0 <= k < |cs[i]| ensures cs[i][k].v in m1 {
        assert cs[i][k] in cs[i];
      }
    }
    assert KnowsAll(m2, cs);
  }

  lemma {:induction false} BodyTextJoin(cs: seq<seq<Lit>>, ds: seq<seq<Lit>>)
    ensures BodyText(cs + ds) == BodyText(cs) + BodyText(ds)
  {
    if cs == [] {
      assert [] + ds == ds;
    } else {
      assert (cs + ds)[1..] == cs[1..] + ds;
      BodyTextJoin(cs[1..], ds);
    }
  }

  /** Write the assumptions as unit clauses, numbering variables that have no number yet. */
  method WriteUnits(ps: seq<Lit>, m0: map<Var, Var>) returns (text: string, m: map<Var, Var>)
    requires Numbering(m0)
    ensures Numbering(m) && Extends(m0, m) && m.Keys == m0.Keys + VarsOf(ps)
    ensures KnowsAll(m, Units(ps)) && text == BodyText(RenameAll(m, Units(ps)))
  {
    hide *;
    text, m := "", m0;
    UnitsStart(m0);
    var i := 0;
    while i < |ps|
      invariant 0 <= i <= |ps| && Numbering(m) && Extends(m0, m) && m.Keys == m0.Keys + VarsOf(ps[..i])
      invariant KnowsAll(m, Units(ps[..i])) && text == BodyText(RenameAll(m, Units(ps[..i])))
    {
      assert ps[..i + 1] == ps[..i] + [ps[i]];
      VarsInPush(ps[..i], ps[i]);
      ghost var m1 := m;
      var line;
      line, m := WriteUnit(ps[i], m, ps[..i]);
      ExtendsTransitive(m0, m1, m);
      text := text + line;
      i := i + 1;
    }
    assert ps[..|ps|] == ps;
  }

  method WriteUnit(p: Lit, m0: map<Var, Var>, ghost done: seq<Lit>) returns (line: string, m: map<Var, Var>)
    requires Numbering(m0) && KnowsAll(m0, Units(done))
    ensures Numbering(m) && Extends(m0, m) && m.Keys == m0.Keys + {p.v} && KnowsAll(m, Units(done + [p]))
    ensures BodyText(RenameAll(m, Units(done + [p]))) == BodyText(RenameAll(m0, Units(done))) + line
  {
    hide *;
    m := MapVar(p.v, m0);
    UnitWritten(m0, m, done, p);
    line := LitText(Lit(m[p.v], p.neg)) + "0\n";
  }

  lemma UnitsStart(m: map<Var, Var>)
    ensures Extends(m, m) && m.Keys == m.Keys + VarsOf([])
    ensures KnowsAll(m, Units([])) && BodyText(RenameAll(m, Units([]))) == ""
  {
  }

  lemma UnitWritten(m1: map<Var, Var>, m: map<Var, Var>, ps: seq<Lit>, p: Lit)
    requires Extends(m1, m) && KnowsAll(m1, Units(ps)) && p.v in m
    ensures KnowsAll(m, Units(ps + [p]))
    ensures BodyText(RenameAll(m, Units(ps + [p]))) ==
            BodyText(RenameAll(m1, Units(ps))) + (LitText(Lit(m[p.v], p.neg)) + "0\n")
  {
    RenameExtends(m1, m, Units(ps));
    assert Units(ps + [p]) == Units(ps) + [[p]];
    assert KnowsAll(m, Units(ps + [p])) by {
      forall c | c in Units(ps) + [[p]] ensures Knows(m, c) {
        if c !in Units(ps) {
          assert c == [p];
        }
      }
    }
    var x := Lit(m[p.v], p.neg);
    assert Rename(m, [p]) == [x];
    assert RenameAll(m, Units(ps) + [[p]]) == RenameAll(m, Units(ps)) + [[x]];
    BodyTextPush(RenameAll(m, Units(ps)), [x]);
    assert [x][1..] == [] && LitsText([x]) == LitText(x) + LitsText([]);
    assert LitText(x) + [] == LitText(x);
  }

  /** Everything that is written: the assumptions, then the clauses. */
  function Output(cs: seq<seq<Lit>>, assigns: seq<LBool>, assumps: seq<Lit>): seq<seq<Lit>> {
    Units(assumps) + Written(cs, assigns)
  }

  /**
   * Write the problem with the assumptions as unit clauses; a solver already contradictory writes a fixed
   * contradiction. The header's variable count, `vars`, is taken before the assumptions are numbered.
   */
  method ToDimacs(ok: bool, cs: seq<seq<Lit>>, assigns: seq<LBool>, assumps: seq<Lit>)
    returns (text: string, vars: nat, m: map<Var, Var>)
    requires ok ==> forall p :: p in assumps ==> !IsFalse(assigns, p)
    ensures !ok ==> text == HeaderText(1, 2) + BodyText([[Lit(0, false)], [Lit(0, true)]])
    ensures ok ==> Numbering(m) && m.Keys == VarsInAll(Output(cs, assigns, assumps))
    ensures ok ==> vars == |VarsInAll(Written(cs, assigns))|
    ensures ok ==>
              var out := Output(cs, assigns, assumps);
              && KnowsAll(m, out) && text == HeaderText(vars, |out|) + BodyText(RenameAll(m, out))
              && SameMeaning(cs, assigns, assumps, m, RenameAll(m, out))
              && OnlyUnassigned(assigns, |assumps|, m, RenameAll(m, out))
  {
    if !ok {
      vars, m := 1, map[];
      text := "p cnf 1 2\n1 0\n-1 0\n";
      ContradictionText();
      return;
    }
    hide *;
    var cnt;
    m, cnt := MapAll(cs, assigns);
    vars := |m|;
    assert |m| == |m.Keys|;
    text := HeaderText(vars, cnt + |assumps|);
    var units, body;
    units, m := WriteUnits(assumps, m);
    OutputText(m, cs, assigns, assumps);
    ReadMeans(cs, assigns, assumps, m);
    body := WriteAll(cs, assigns, m);
    text := text + (units + body);
  }

  lemma OutputText(m: map<Var, Var>, cs: seq<seq<Lit>>, assigns: seq<LBool>, assumps: seq<Lit>)
    requires m.Keys == VarsInAll(Written(cs, assigns)) + VarsOf(assumps)
    ensures var out := Output(cs, assigns, assumps);
            && m.Keys == VarsInAll(out) && KnowsAll(m, Units(assumps)) && KnowsAll(m, Written(cs, assigns))
            && KnowsAll(m, out) && |out| == |Written(cs, assigns)| + |assumps|
            && BodyText(RenameAll(m, out)) ==
                 BodyText(RenameAll(m, Units(assumps))) + BodyText(RenameAll(m, Written(cs, assigns)))
  {
    hide Written, BodyText, VarsInAll, VarsOf, KnowsAll;
    var us, ws := Units(assumps), Written(cs, assigns);
    VarsInUnits(assumps);
    VarsInAllJoin(us, ws);
    KnowsKeys(m, us);
    KnowsKeys(m, ws);
    KnowsKeys(m, us + ws);
    assert RenameAll(m, us + ws) == RenameAll(m, us) + RenameAll(m, ws);
    BodyTextJoin(RenameAll(m, us), RenameAll(m, ws));
  }

  /** With no clause and one assumption the header promises no variable, and then one is used. */
  method AssumptionUncounted(p: Lit) returns (text: string)
    requires !p.neg
    ensures text == "p cnf 0 1\n1 0\n"
  {
    var vars, m;
    text, vars, m := ToDimacs(true, [], [], [p]);
    assert Written([], []) == [] && Output([], [], [p]) == [[p]];
    assert VarsInAll([[p]]) == {p.v} by {
      assert [p] in [[p]] && p in [p];
    }
    assert VarsInAll([]) == {};
    assert m.Keys == {p.v} && |m| == |m.Keys| == 1;
    assert m[p.v] == 0;
    assert Rename(m, [p]) == [Lit(0, false)];
    assert RenameAll(m, [[p]]) == [Rename(m, [p])];
    assert BodyText([[Lit(0, false)]]) == "1 0\n" + BodyText([]) by {
      assert [[Lit(0, false)]][1..] == [] && [Lit(0, false)][1..] == [];
    }
  }

  lemma ContradictionText()
    ensures "p cnf 1 2\n1 0\n-1 0\n" == HeaderText(1, 2) + BodyText([[Lit(0, false)], [Lit(0, true)]])
  {
    var a, b: seq<Lit> := [Lit(0, false)], [Lit(0, true)];
    assert [a, b][1..] == [b] && [b][1..] == [] && a[1..] == [] && b[1..] == [];
    assert BodyText([b]) == "-1 0\n" + "";
    assert BodyText([a, b]) == "1 0\n" + BodyText([b]);
  }

  // ---------------------------------------------------------------- writing, then reading

  /** The assignment has the values given so far. */
  ghost predicate Extended(a: Model, assigns: seq<LBool>) {
    forall v :: 0 <= v < |assigns| && assigns[v] != Undef ==> a(v) == (assigns[v] == True)
  }

  lemma {:induction false} NotFalseMembers(c: seq<Lit>, assigns: seq<LBool>)
    ensures forall p :: p in NotFalse(c, assigns) <==> p in c && !IsFalse(assigns, p)
  {
    if c != [] {
      var n := |c| - 1;
      NotFalseMembers(c[..n], assigns);
      assert c == c[..n] + [c[n]];
    }
  }

  /** Dropping a clause with a true literal, or the false literals of another, does not change what it means. */
  lemma NotFalseMeans(c: seq<Lit>, assigns: seq<LBool>, a: Model)
    requires Extended(a, assigns)
    ensures if Satisfied(c, assigns) then SatClause(a, c) else SatClause(a, NotFalse(c, assigns)) <==> SatClause(a, c)
  {
    NotFalseMembers(c, assigns);
    if Satisfied(c, assigns) {
      var k :| 0 <= k < |c| && IsTrue(assigns, c[k]);
      assert c[k] in c && Holds(a, c[k]);
    } else if SatClause(a, c) {
      var p :| p in c && Holds(a, p);
      assert p in NotFalse(c, assigns);
    }
  }

  lemma {:induction false} WrittenMeans(cs: seq<seq<Lit>>, assigns: seq<LBool>, a: Model)
    requires Extended(a, assigns)
    ensures SatAll(a, Written(cs, assigns)) <==> SatAll(a, cs)
  {
    if cs != [] {
      var n := |cs| - 1;
      WrittenMeans(cs[..n], assigns, a);
      NotFalseMeans(cs[n], assigns, a);
      assert cs == cs[..n] + [cs[n]];
      SatAppend(a, cs[..n], cs[n]);
      SatAppend(a, Written(cs[..n], assigns), NotFalse(cs[n], assigns));
    }
  }

  /** Everything written together means the clauses and the assumptions. */
  lemma OutputMeans(cs: seq<seq<Lit>>, assigns: seq<LBool>, assumps: seq<Lit>, a: Model)
    requires Extended(a, assigns)
    ensures SatAll(a, Output(cs, assigns, assumps)) <==> SatAll(a, cs) && forall p :: p in assumps ==> Holds(a, p)
  {
    var us, ws := Units(assumps), Written(cs, assigns);
    WrittenMeans(cs, assigns, a);
    assert forall c :: c in us + ws <==> c in us || c in ws;
    assert SatAll(a, us) <==> forall p :: p in assumps ==> Holds(a, p) by {
      forall p | p in assumps ensures [p] in us && (SatClause(a, [p]) <==> Holds(a, p)) {
        var i :| 0 <= i < |assumps| && assumps[i] == p;
        assert us[i] == [p] && p in [p];
      }
      forall c | c in us ensures exists p :: p in assumps && c == [p] {
        var i :| 0 <= i < |us| && us[i] == c;
        assert assumps[i] in assumps;
      }
    }
  }

  /** The literals written from problem clauses are over variables without a value. */
  lemma {:induction false} WrittenUnassigned(cs: seq<seq<Lit>>, assigns: seq<LBool>)
    ensures forall c, p :: c in Written(cs, assigns) && p in c ==> p.v >= |assigns| || assigns[p.v] == Undef
  {
    if cs != [] {
      var n := |cs| - 1;
      WrittenUnassigned(cs[..n], assigns);
      NotFalseMembers(cs[n], assigns);
      if !Satisfied(cs[n], assigns) {
        forall p | p in NotFalse(cs[n], assigns) ensures p.v >= |assigns| || assigns[p.v] == Undef {
          var k :| 0 <= k < |cs[n]| && cs[n][k] == p;
        }
      }
    }
  }

  /** b values the new numbers as a values the variables they stand for. */
  ghost predicate Carries(m: map<Var, Var>, a: Model, b: Model) {
    forall v :: v in m ==> b(m[v]) == a(v)
  }

  lemma RenamedMeans(m: map<Var, Var>, cs: seq<seq<Lit>>, a: Model, b: Model)
    requires KnowsAll(m, cs) && Carries(m, a, b)
    ensures SatAll(b, RenameAll(m, cs)) <==> SatAll(a, cs)
  {
    var rs := RenameAll(m, cs);
    forall i | 0 <= i < |cs| ensures cs[i] in cs && rs[i] in rs && (SatClause(b, rs[i]) <==> SatClause(a, cs[i])) {
      assert cs[i] in cs && rs[i] in rs && rs[i] == Rename(m, cs[i]);
      RenamedClause(m, cs[i], a, b);
    }
    forall c | c in cs && SatAll(b, rs) ensures SatClause(a, c) {
      var i :| 0 <= i < |cs| && cs[i] == c;
    }
    forall c | c in rs && SatAll(a, cs) ensures SatClause(b, c) {
      var i :| 0 <= i < |rs| && rs[i] == c;
    }
  }

  lemma RenamedClause(m: map<Var, Var>, c: seq<Lit>, a: Model, b: Model)
    requires Knows(m, c) && Carries(m, a, b)
    ensures SatClause(b, Rename(m, c)) <==> SatClause(a, c)
  {
    var d := Rename(m, c);
    forall k | 0 <= k < |c| ensures c[k] in c && d[k] in d && (Holds(b, d[k]) <==> Holds(a, c[k])) {
      assert c[k] in c;
    }
    if SatClause(a, c) {
      var p :| p in c && Holds(a, p);
      var k :| 0 <= k < |c| && c[k] == p;
    }
    if SatClause(b, d) {
      var p :| p in d && Holds(b, p);
      var k :| 0 <= k < |d| && d[k] == p;
    }
  }

  /** What was read back means the clauses and the assumptions, for every assignment that agrees with the facts. */
  ghost predicate SameMeaning(cs: seq<seq<Lit>>, assigns: seq<LBool>, assumps: seq<Lit>, m: map<Var, Var>,
                              body: seq<seq<Lit>>) {
    forall a: Model, b: Model :: Extended(a, assigns) && Carries(m, a, b) ==>
      (SatAll(b, body) <==> SatAll(a, cs) && forall p :: p in assumps ==> Holds(a, p))
  }

  /** After the assumptions, every literal that was read is over the number of a variable without a value. */
  ghost predicate OnlyUnassigned(assigns: seq<LBool>, n: nat, m: map<Var, Var>, body: seq<seq<Lit>>) {
    forall i, p: Lit :: n <= i < |body| && p in body[i] ==>
      exists v: Var :: v in m && m[v] == p.v && (v >= |assigns| || assigns[v] == Undef)
  }

  lemma ReadMeans(cs: seq<seq<Lit>>, assigns: seq<LBool>, assumps: seq<Lit>, m: map<Var, Var>)
    requires KnowsAll(m, Output(cs, assigns, assumps))
    ensures var body := RenameAll(m, Output(cs, assigns, assumps));
            SameMeaning(cs, assigns, assumps, m, body) && OnlyUnassigned(assigns, |assumps|, m, body)
  {
    var out := Output(cs, assigns, assumps);
    var body := RenameAll(m, out);
    forall a: Model, b: Model | Extended(a, assigns) && Carries(m, a, b)
      ensures SatAll(b, body) <==> SatAll(a, cs) && forall p :: p in assumps ==> Holds(a, p)
    {
      RenamedMeans(m, out, a, b);
      OutputMeans(cs, assigns, assumps, a);
    }
    WrittenUnassigned(cs, assigns);
    forall i, p: Lit | |assumps| <= i < |body| && p in body[i]
      ensures exists v: Var :: v in m && m[v] == p.v && (v >= |assigns| || assigns[v] == Undef)
    {
      var c := out[i];
      assert c == Written(cs, assigns)[i - |assumps|] && c in Written(cs, assigns) && c in out;
      var k :| 0 <= k < |body[i]| && body[i][k] == p;
      assert c[k] in c && m[c[k].v] == p.v;
    }
  }

  /**
   * Reading back what was written gives clauses that mean the assumptions and the given clauses, under one injective
   * renaming; only assumptions are over variables that already have a value. The header's clause count is right; its
   * variable count is the number of variables read exactly when every assumption is over a variable that occurs in a
   * written clause.
   */
  method WriteAndRead(cs: seq<seq<Lit>>, assigns: seq<LBool>, assumps: seq<Lit>)
    returns (res: Option<Cnf>, nVars: nat, vars: nat, m: map<Var, Var>)
    requires forall p :: p in assumps ==> !IsFalse(assigns, p)
    ensures var out := Output(cs, assigns, assumps);
            && Numbering(m) && KnowsAll(m, out) && res == Some(Cnf(vars, |out|, RenameAll(m, out)))
            && nVars == |VarsInAll(out)|
    ensures SameMeaning(cs, assigns, assumps, m, res.value.body)
    ensures OnlyUnassigned(assigns, |assumps|, m, res.value.body)
    ensures vars == nVars <==> forall p :: p in assumps ==> p.v in VarsInAll(Written(cs, assigns))
  {
    hide Numbering, Written, BodyText, RenameAll, VarsInAll, KnowsAll, HeaderText, Document, MaxVars, Output,
      SameMeaning, OnlyUnassigned;
    var text;
    text, vars, m := ToDimacs(true, cs, assigns, assumps);
    ghost var out := Output(cs, assigns, assumps);
    RoundTrip(vars, RenameAll(m, out));
    res, nVars := ParseDimacs(text);
    VariablesNeeded(m, out);
    HeaderExact(cs, assigns, assumps);
  }

  /** The assumptions add to the variables exactly those that no written clause has. */
  lemma HeaderExact(cs: seq<seq<Lit>>, assigns: seq<LBool>, assumps: seq<Lit>)
    ensures var before, after := VarsInAll(Written(cs, assigns)), VarsInAll(Output(cs, assigns, assumps));
            |before| <= |after| && (|before| == |after| <==> forall p :: p in assumps ==> p.v in before)
  {
    var before, after := VarsInAll(Written(cs, assigns)), VarsInAll(Output(cs, assigns, assumps));
    VarsInUnits(assumps);
    VarsInAllJoin(Units(assumps), Written(cs, assigns));
    assert after == before + (VarsOf(assumps) - before);
    assert |after| == |before| + |VarsOf(assumps) - before|;
    if forall p :: p in assumps ==> p.v in before {
      assert VarsOf(assumps) - before == {};
    } else {
      var p :| p in assumps && p.v !in before;
      assert p.v in VarsOf(assumps) - before;
    }
  }

  lemma {:induction false} MaxVarBounds(c: seq<Lit>, n: nat, bound: nat)
    requires n <= bound && forall p :: p in c ==> p.v < bound
    ensures n <= MaxVar(c, n) <= bound && forall p :: p in c ==> p.v < MaxVar(c, n)
  {
    if c != [] {
      MaxVarBounds(c[..|c| - 1], n, bound);
      assert c == c[..|c| - 1] + [c[|c| - 1]];
    }
  }

  lemma {:induction false} MaxVarsBounds(cs: seq<seq<Lit>>, bound: nat)
    requires forall c, p :: c in cs && p in c ==> p.v < bound
    ensures MaxVars(cs, 0) <= bound && forall c, p :: c in cs && p in c ==> p.v < MaxVars(cs, 0)
  {
    if cs != [] {
      var n := |cs| - 1;
      assert cs == cs[..n] + [cs[n]];
      MaxVarsBounds(cs[..n], bound);
      MaxVarBounds(cs[n], MaxVars(cs[..n], 0), bound);
    }
  }

  /** The renamed clauses need exactly the variables that were numbered. */
  lemma VariablesNeeded(m: map<Var, Var>, cs: seq<seq<Lit>>)
    requires Numbering(m) && KnowsAll(m, cs) && m.Keys == VarsInAll(cs)
    ensures MaxVars(RenameAll(m, cs), 0) == |m|
  {
    var rs := RenameAll(m, cs);
    forall c, p | c in rs && p in c ensures p.v < |m| {
      var i :| 0 <= i < |rs| && rs[i] == c;
      var k :| 0 <= k < |c| && c[k] == p;
      assert cs[i] in cs && cs[i][k] in cs[i];
    }
    MaxVarsBounds(rs, |m|);
    if |m| > 0 {
      assert Used(m, |m| - 1);
      var x :| x in m && m[x] == |m| - 1;
      var c, q :| c in cs && q in c && q.v == x;
      var i :| 0 <= i < |cs| && cs[i] == c;
      var k :| 0 <= k < |c| && c[k] == q;
      assert rs[i] in rs && rs[i][k] in rs[i] && rs[i][k].v == |m| - 1;
    }
  }
}
