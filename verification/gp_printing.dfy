/** Printed expression trees and the fitness memo keyed on them (`internal/gp/gp.go`). */
module GpPrinting {
  datatype Op = Add | Sub | Mul | Div | Min | Max

  /** A constant is represented by its printed token. */
  datatype Node = Nil | Const(token: string) | Var(idx: int) | Bin(op: Op, l: Node, r: Node)

  datatype Individual = Individual(nprobe: Node, rerank: Node)

  predicate Plain(c: char) {
    c != ' ' && c != '(' && c != ')'
  }

  predicate Token(s: string) {
    s != "" && forall i :: 0 <= i < |s| ==> Plain(s[i])
  }

  /** Constants print as a token that no variable prints as. */
  predicate Printable(n: Node) {
    match n
    case Nil => true
    case Const(token) => Token(token) && token[0] != 'f'
    case Var(_) => true
    case Bin(_, l, r) => Printable(l) && Printable(r)
  }

  // ---------------------------------------------------------------------------
  // Printing

  function Digit(d: nat): char
    requires d < 10
  {
    '0' + d as char
  }

  function Digits(n: nat): string {
    if n < 10 then [Digit(n)] else Digits(n / 10) + [Digit(n % 10)]
  }

  /** `strconv.Itoa` */
  function Itoa(i: int): string {
    if i < 0 then "-" + Digits(-i) else Digits(i)
  }

  function Symbol(op: Op): string {
    match op
    case Add => "+"
    case Sub => "-"
    case Mul => "*"
    case Div => "/"
    case Min => "min"
    case Max => "max"
  }

  /** `str` */
  function Str(n: Node): string {
    match n
    case Nil => "()"
    case Const(token) => token
    case Var(idx) => "f" + Itoa(idx)
    case Bin(op, l, r) => "(" + Symbol(op) + " " + Str(l) + " " + Str(r) + ")"
  }

  /** `Individual.String` */
  function String(x: Individual): string {
    "np=" + Str(x.nprobe) + " rk=" + Str(x.rerank)
  }

  // ---------------------------------------------------------------------------
  // Parsing

  function Number(s: string): int {
    if s == "" then 0 else 10 * Number(s[..|s| - 1]) + (s[|s| - 1] as int - '0' as int)
  }

  function Atoi(s: string): int {
    if s != "" && s[0] == '-' then -Number(s[1..]) else Number(s)
  }

  /** The longest token `s` starts with. */
  function Lead(s: string): (t: string)
    ensures |t| <= |s|
  {
    if s != "" && Plain(s[0]) then [s[0]] + Lead(s[1..]) else ""
  }

  datatype Parsed = Parsed(node: Node, rest: string) | Malformed

  function Operator(sym: string): (op: Op) {
    if sym == "+" then Add
    else if sym == "-" then Sub
    else if sym == "*" then Mul
    else if sym == "/" then Div
    else if sym == "min" then Min
    else Max
  }

  function Parse(s: string): (p: Parsed)
    ensures p.Parsed? ==> |p.rest| < |s|
    decreases |s|
  {
    if s == "" then Malformed
    else if s[0] == '(' then
      if |s| > 1 && s[1] == ')' then Parsed(Nil, s[2..]) else ParseBin(s)
    else
      var t := Lead(s);
      if t == "" then Malformed
      else Parsed(if t[0] == 'f' then Var(Atoi(t[1..])) else Const(t), s[|t|..])
  }

  function ParseBin(s: string): (p: Parsed)
    requires s != "" && s[0] == '('
    ensures p.Parsed? ==> |p.rest| < |s|
    decreases |s|, 0
  {
    var sym := Lead(s[1..]);
    var l := Parse(After(s[1 + |sym|..], ' '));
    if l == Malformed then Malformed
    else
      var r := Parse(After(l.rest, ' '));
      if r == Malformed then Malformed
      else Parsed(Bin(Operator(sym), l.node, r.node), After(r.rest, ')'))
  }

  /** What follows an expected separator. */
  function After(s: string, c: char): (r: string)
    ensures |r| <= |s|
  {
    if s != "" && s[0] == c then s[1..] else s
  }

  // ---------------------------------------------------------------------------
  // Parsing inverts printing

  predicate Separated(rest: string) {
    rest == "" || rest[0] == ' ' || rest[0] == ')'
  }

  lemma {:induction false} LeadOfToken(t: string, rest: string)
    requires (forall i :: 0 <= i < |t| ==> Plain(t[i])) && Separated(rest)
    ensures Lead(t + rest) == t
  {
    if t == "" {
      assert t + rest == rest;
    } else {
      assert (t + rest)[1..] == t[1..] + rest;
      LeadOfToken(t[1..], rest);
    }
  }

  lemma {:induction false} DigitsInverse(n: nat)
    ensures Digits(n) != "" && Number(Digits(n)) == n
    ensures forall i :: 0 <= i < |Digits(n)| ==> '0' <= Digits(n)[i] <= '9'
  {
    if n < 10 {
      assert Digits(n)[..0] == "";
    } else {
      DigitsInverse(n / 10);
      var d := Digits(n);
      assert d[..|d| - 1] == Digits(n / 10);
      assert d[|d| - 1] == Digit(n % 10);
    }
  }

  lemma ItoaInverse(i: int)
    ensures Token(Itoa(i)) && Atoi(Itoa(i)) == i
  {
    DigitsInverse(if i < 0 then -i else i);
    hide Digits, Number;
    if i < 0 {
      assert Itoa(i)[1..] == Digits(-i);
    }
  }

  lemma SymbolInverse(op: Op)
    ensures Operator(Symbol(op)) == op && Token(Symbol(op))
  {
  }

  /** However a printed tree is continued, parsing finds the tree and the continuation. */
  lemma {:induction false} ParseInvertsStr(n: Node, rest: string)
    requires Printable(n) && Separated(rest)
    ensures Parse(Str(n) + rest) == Parsed(n, rest)
    decreases n, 1
  {
    match n
    case Nil =>
      assert (Str(n) + rest)[2..] == rest;
    case Const(token) =>
      LeadOfToken(token, rest);
      assert (token + rest)[|token|..] == rest;
    case Var(idx) =>
      hide Itoa, Atoi;
      ItoaInverse(idx);
      var t := "f" + Itoa(idx);
      assert forall i :: 0 <= i < |t| ==> Plain(t[i]);
      LeadOfToken(t, rest);
      assert t[1..] == Itoa(idx);
      assert (t + rest)[|t|..] == rest;
    case Bin(op, l, r) =>
      BinInverts(n, rest);
  }

  lemma BinInverts(n: Node, rest: string)
    requires n.Bin? && Printable(n) && Separated(rest)
    ensures Parse(Str(n) + rest) == Parsed(n, rest)
    decreases n, 0
  {
    hide Parse, ParseBin;
    BinString(n, rest);
    hide Str;
    ParseInvertsStr(n.l, AfterLeft(Str(n.r), rest));
    ParseInvertsStr(n.r, ")" + rest);
    ParseBinOf(n, Str(n.l), Str(n.r), rest);
  }

  function AfterLeft(right: string, rest: string): string {
    " " + (right + (")" + rest))
  }

  function AfterSymbol(left: string, right: string, rest: string): string {
    " " + (left + AfterLeft(right, rest))
  }

  lemma BinString(n: Node, rest: string)
    requires n.Bin?
    ensures Str(n) + rest == "(" + (Symbol(n.op) + AfterSymbol(Str(n.l), Str(n.r), rest))
  {
    hide Symbol;
  }

  lemma AfterSeparator(c: char, t: string)
    ensures After([c] + t, c) == t
  {
  }

  lemma ParseBinOf(n: Node, left: string, right: string, rest: string)
    requires n.Bin? && Parse(left + AfterLeft(right, rest)) == Parsed(n.l, AfterLeft(right, rest))
    requires Parse(right + (")" + rest)) == Parsed(n.r, ")" + rest)
    ensures Parse("(" + (Symbol(n.op) + AfterSymbol(left, right, rest))) == Parsed(n, rest)
  {
    hide Parse, Lead, After, Symbol, Operator;
    var sym, first := Symbol(n.op), AfterSymbol(left, right, rest);
    var s := "(" + (sym + first);
    SymbolInverse(n.op);
    LeadOfToken(sym, first);
    assert s[1..] == sym + first;
    assert s[1 + |sym|..] == first;
    AfterSeparator(' ', left + AfterLeft(right, rest));
    AfterSeparator(' ', right + (")" + rest));
    AfterSeparator(')', rest);
    ParsesAsBin(s);
  }

  lemma ParsesAsBin(s: string)
    requires |s| > 1 && s[0] == '(' && s[1] != ')'
    ensures Parse(s) == ParseBin(s)
  {
    hide ParseBin;
  }

  /** The printed form of a tree determines the tree. */
  lemma StrInjective(a: Node, b: Node)
    requires Printable(a) && Printable(b) && Str(a) == Str(b)
    ensures a == b
  {
    hide Str, Parse, Printable;
    ParseInvertsStr(a, "");
    ParseInvertsStr(b, "");
    assert Str(a) + "" == Str(a) && Str(b) + "" == Str(b);
  }

  predicate AllPrintable(x: Individual) {
    Printable(x.nprobe) && Printable(x.rerank)
  }

  /** Two individuals print alike only when they are the same pair of trees. */
  lemma StringInjective(a: Individual, b: Individual)
    requires AllPrintable(a) && AllPrintable(b) && String(a) == String(b)
    ensures a == b
  {
    hide Str, Parse, Printable;
    var restA, restB := " rk=" + Str(a.rerank), " rk=" + Str(b.rerank);
    assert String(a)[3..] == Str(a.nprobe) + restA;
    assert String(b)[3..] == Str(b.nprobe) + restB;
    ParseInvertsStr(a.nprobe, restA);
    ParseInvertsStr(b.nprobe, restB);
    assert restA[4..] == Str(a.rerank) && restB[4..] == Str(b.rerank);
    StrInjective(a.rerank, b.rerank);
  }

  // ---------------------------------------------------------------------------
  // The memo

  ghost predicate PrintOf(xs: seq<Individual>, k: string) {
    exists i :: 0 <= i < |xs| && String(xs[i]) == k
  }

  /** The cache holds the fitness of exactly the individuals evaluated, each evaluated
      once. */
  ghost predicate Memoized(cache: map<string, real>, evaluated: seq<Individual>, fitness: Individual -> real) {
    && (forall i :: 0 <= i < |evaluated| ==> AllPrintable(evaluated[i]))
    && (forall k :: k in cache ==> PrintOf(evaluated, k))
    && (forall i :: 0 <= i < |evaluated| ==> Cached(cache, evaluated[i], fitness))
    && forall i, j :: 0 <= i < j < |evaluated| ==> evaluated[i] != evaluated[j]
  }

  ghost predicate Cached(cache: map<string, real>, x: Individual, fitness: Individual -> real) {
    String(x) in cache && cache[String(x)] == fitness(x)
  }

  /** A key found in the cache is this individual's own. */
  lemma FoundIsOwn(cache: map<string, real>, evaluated: seq<Individual>, fitness: Individual -> real, x: Individual)
    requires Memoized(cache, evaluated, fitness) && AllPrintable(x)
    ensures String(x) in cache <==> x in evaluated
    ensures String(x) in cache ==> cache[String(x)] == fitness(x)
  {
    hide String, AllPrintable;
    if String(x) in cache {
      var i :| 0 <= i < |evaluated| && String(evaluated[i]) == String(x);
      StringInjective(evaluated[i], x);
    }
    if x in evaluated {
      var i :| 0 <= i < |evaluated| && evaluated[i] == x;
      assert Cached(cache, evaluated[i], fitness);
    }
  }

  lemma Remembered(cache: map<string, real>, evaluated: seq<Individual>, fitness: Individual -> real, x: Individual)
    requires Memoized(cache, evaluated, fitness) && AllPrintable(x) && String(x) !in cache && x !in evaluated
    ensures Memoized(cache[String(x) := fitness(x)], evaluated + [x], fitness)
  {
    hide String, AllPrintable;
    var k, more, grown := String(x), evaluated + [x], cache[String(x) := fitness(x)];
    forall key | key in grown
      ensures PrintOf(more, key)
    {
      if key == k {
        assert String(more[|evaluated|]) == k;
      } else {
        var i :| 0 <= i < |evaluated| && String(evaluated[i]) == key;
        assert String(more[i]) == key;
      }
    }
    forall i | 0 <= i < |more|
      ensures Cached(grown, more[i], fitness)
    {
      if i < |evaluated| {
        assert Cached(cache, evaluated[i], fitness);
      }
    }
  }

  class Memo {
    const fitness: Individual -> real
    var cache: map<string, real>
    /** The individuals whose fitness was computed. */
    ghost var evaluated: seq<Individual>

    ghost predicate Valid()
      reads this
    {
      Memoized(cache, evaluated, fitness)
    }

    constructor (fitness: Individual -> real)
      ensures Valid() && this.fitness == fitness && evaluated == []
    {
      this.fitness := fitness;
      cache, evaluated := map[], [];
    }

    /** `fit`: always this individual's own fitness, computed at most once. */
    method Fit(x: Individual) returns (v: real)
      requires Valid() && AllPrintable(x)
      modifies this
      ensures Valid() && v == fitness(x)
      ensures evaluated == if x in old(evaluated) then old(evaluated) else old(evaluated) + [x]
    {
      hide String, Memoized;
      var k := String(x);
      FoundIsOwn(cache, evaluated, fitness, x);
      if k in cache {
        return cache[k];
      }
      Remembered(cache, evaluated, fitness, x);
      v := fitness(x);
      cache := cache[k := v];
      evaluated := evaluated + [x];
    }
  }
}
