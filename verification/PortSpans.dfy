/** Port ranges as text: parsing, the canonical form, and mapping a listen range
    onto destination ports. */
module PortSpans {
  import opened Common

  /** An inclusive range of ports. */
  datatype Span = Span(start: int, end: int) {
    function Len(): int { end - start + 1 }

    predicate Valid() { 1 <= start <= end <= 65535 }
  }

  const ALL := Span(1, 65535)

  // ----- text

  predicate IsSpace(c: char) { c == ' ' || 9 <= c as int <= 13 || c as int == 0x85 || c as int == 0xA0 }

  predicate IsDigit(c: char) { '0' <= c <= '9' }

  function TrimLeft(s: string): (r: string) { if s != "" && IsSpace(s[0]) then TrimLeft(s[1..]) else s }

  function TrimRight(s: string): (r: string)
  {
    if s != "" && IsSpace(s[|s|-1]) then TrimRight(s[..|s|-1]) else s
  }

  function TrimSpace(s: string): (r: string) { TrimRight(TrimLeft(s)) }

  function Digit(d: nat): (c: char)
    requires d < 10
    ensures IsDigit(c) && c as int == d + 48
  {
    (d + 48) as char
  }

  function Itoa(n: nat): (s: string)
    ensures |s| > 0 && forall i :: 0 <= i < |s| ==> IsDigit(s[i])
  {
    if n < 10 then [Digit(n)] else Itoa(n / 10) + [Digit(n % 10)]
  }

  /** The value of a non-empty string of digits. */
  function ParseDigits(s: string): (v: Option<nat>)
  {
    if s == "" || !IsDigit(s[|s|-1]) then None
    else
      var d: nat := s[|s|-1] as int - 48;
      if |s| == 1 then Some(d)
      else match ParseDigits(s[..|s|-1])
        case None => None
        case Some(v) => Some(10 * v + d)
  }

  /** An optional sign and digits. */
  function Atoi(s: string): (v: Option<int>)
  {
    if s == "" then None
    else if s[0] == '+' || s[0] == '-' then
      match ParseDigits(s[1..])
      case None => None
      case Some(v) => Some(if s[0] == '-' then -(v as int) else v as int)
    else
      match ParseDigits(s)
      case None => None
      case Some(v) => Some(v)
  }

  function ParsePort(s: string): (p: Option<int>)
    ensures p.Some? ==> 1 <= p.value <= 65535
  {
    match Atoi(TrimSpace(s))
    case None => None
    case Some(n) => if 1 <= n <= 65535 then Some(n) else None
  }

  /** The position of the first dash, or the length. */
  function Dash(s: string): (i: nat)
    ensures i <= |s| && (i < |s| ==> s[i] == '-') && forall j :: 0 <= j < i ==> s[j] != '-'
  {
    if s == "" || s[0] == '-' then 0 else 1 + Dash(s[1..])
  }

  function ParsePortSpan(text: string): (r: Option<Span>)
    ensures r.Some? ==> r.value.Valid()
  {
    var s := TrimSpace(text);
    if s == "*" then Some(ALL)
    else
      var i := Dash(s);
      if i < |s| then
        var a, b := ParsePort(s[..i]), ParsePort(s[i+1..]);
        if a.Some? && b.Some? && a.value <= b.value then Some(Span(a.value, b.value)) else None
      else
        match ParsePort(s)
        case None => None
        case Some(p) => Some(Span(p, p))
  }

  function Canon(s: Span): (text: string)
    requires s.Valid()
  {
    if s.start == s.end then Itoa(s.start)
    else if s == ALL then "*"
    else Itoa(s.start) + "-" + Itoa(s.end)
  }

  // ----- the canonical text parses back

  lemma TrimNothing(s: string)
    requires s != "" && !IsSpace(s[0]) && !IsSpace(s[|s|-1])
    ensures TrimSpace(s) == s
  {
  }

  lemma {:induction false} ItoaParses(n: nat)
    ensures ParseDigits(Itoa(n)) == Some(n)
  {
    if n >= 10 {
      ItoaParses(n / 10);
      assert Itoa(n)[..|Itoa(n)|-1] == Itoa(n / 10);
    }
  }

  /** Digits mean their number with or without a plus sign, and its negative behind a minus. */
  lemma AtoiIs(n: nat)
    ensures Atoi(Itoa(n)) == Some(n) && Atoi("+" + Itoa(n)) == Some(n) && Atoi("-" + Itoa(n)) == Some(-(n as int))
  {
    var ds := Itoa(n);
    assert ("+" + ds)[1..] == ds && ("-" + ds)[1..] == ds;
    ItoaParses(n);
  }

  lemma ItoaPort(n: int)
    requires 1 <= n <= 65535
    ensures ParsePort(Itoa(n)) == Some(n)
  {
    var s := Itoa(n);
    assert IsDigit(s[0]) && IsDigit(s[|s|-1]);
    TrimNothing(s);
    ItoaParses(n);
  }

  lemma DashAt(a: string, b: string)
    requires forall i :: 0 <= i < |a| ==> IsDigit(a[i])
    ensures Dash(a + "-" + b) == |a|
  {
    var s := a + "-" + b;
    assert s[|a|] == '-';
    forall j | 0 <= j < |a| ensures s[j] != '-' { assert IsDigit(a[j]); }
  }

  lemma NoDash(a: string)
    requires forall i :: 0 <= i < |a| ==> IsDigit(a[i])
    ensures Dash(a) == |a|
  {
    forall j | 0 <= j < |a| ensures a[j] != '-' { assert IsDigit(a[j]); }
  }

  lemma SingleParses(n: int)
    requires 1 <= n <= 65535
    ensures ParsePortSpan(Itoa(n)) == Some(Span(n, n)) && TrimSpace(Itoa(n)) == Itoa(n) && Itoa(n) != "*"
  {
    var a := Itoa(n);
    assert IsDigit(a[0]) && IsDigit(a[|a|-1]);
    ItoaPort(n);
    TrimNothing(a);
    NoDash(a);
  }

  predicate Digits(s: string) { s != "" && forall i :: 0 <= i < |s| ==> IsDigit(s[i]) }

  lemma RangeText(a: string, b: string)
    requires Digits(a) && Digits(b)
    ensures var text := a + "-" + b;
            TrimSpace(text) == text && Dash(text) == |a| && text[..|a|] == a && text[|a|+1..] == b && text[0] != '*'
  {
    var text := a + "-" + b;
    assert text[0] == a[0] && text[|text|-1] == b[|b|-1];
    TrimNothing(text);
    DashAt(a, b);
  }

  lemma RangeParses(m: int, n: int)
    requires 1 <= m <= n <= 65535
    ensures var text := Itoa(m) + "-" + Itoa(n);
            ParsePortSpan(text) == Some(Span(m, n)) && TrimSpace(text) == text && text != "*"
  {
    RangeText(Itoa(m), Itoa(n));
    ItoaPort(m);
    ItoaPort(n);
  }

  /** Parsing undoes Canon. */
  lemma CanonParses(s: Span)
    requires s.Valid()
    ensures ParsePortSpan(Canon(s)) == Some(s) && TrimSpace(Canon(s)) == Canon(s) && Canon(s) != ""
    ensures Canon(s) == "*" <==> s == ALL
  {
    if s.start == s.end {
      SingleParses(s.start);
    } else if s == ALL {
      TrimNothing("*");
    } else {
      RangeParses(s.start, s.end);
    }
  }

  // ----- destinations

  /** destExpr "*" keeps each port; a single port starts a run as long as listen; a
      range must have listen's length; empty text means destPort alone. */
  function ResolveDest(listen: Span, destExpr: string, destPort: nat): (r: Option<Span>)
  {
    var expr := TrimSpace(destExpr);
    if listen.Len() < 1 then None
    else if expr == "*" then Some(listen)
    else
      var dest := if expr != "" then ParsePortSpan(expr)
                  else if destPort == 0 then None else Some(Span(destPort, destPort));
      match dest
      case None => None
      case Some(d) =>
        if d.Len() == 1 && listen.Len() > 1 then
          var end := d.start + listen.Len() - 1;
          if end > 65535 then None else Some(Span(d.start, end))
        else if d.Len() != listen.Len() then None
        else Some(d)
  }

  /** "*" leads to the listening ports themselves; otherwise the first destination port is
      that of the text, or the number given where there is no text. */
  lemma ResolvedStarts(listen: Span, destExpr: string, destPort: nat)
    requires listen.Valid() && destPort <= 65535
    ensures var r, expr := ResolveDest(listen, destExpr, destPort), TrimSpace(destExpr);
            && (expr == "*" ==> r == Some(listen))
            && (expr == "" && r.Some? ==> r.value.start == destPort > 0)
            && (expr != "*" && expr != "" && r.Some? ==>
                  ParsePortSpan(expr).Some? && r.value.start == ParsePortSpan(expr).value.start)
  {
  }

  /** It resolves if and only if there is a destination, of one port or of as many as are
      listened on, and its last port exists. */
  lemma ResolvesIff(listen: Span, destExpr: string, destPort: nat)
    requires listen.Valid() && destPort <= 65535 && TrimSpace(destExpr) != "*"
    ensures var expr := TrimSpace(destExpr);
            var dest := if expr != "" then ParsePortSpan(expr)
                        else if destPort == 0 then None else Some(Span(destPort, destPort));
            ResolveDest(listen, destExpr, destPort).Some? <==>
            dest.Some? && dest.value.Len() in {1, listen.Len()} && dest.value.start + listen.Len() - 1 <= 65535
  {
  }

  /** A destination has as many ports as the listen range, and all of them exist. */
  lemma ResolvedFits(listen: Span, destExpr: string, destPort: nat)
    requires listen.Valid() && destPort <= 65535 && ResolveDest(listen, destExpr, destPort).Some?
    ensures var d := ResolveDest(listen, destExpr, destPort).value; d.Valid() && d.Len() == listen.Len()
  {
  }

  /** What the store keeps of a destination. */
  function StoredDest(destExpr: string, dest: Span): (r: (string, nat))
    requires dest.Valid()
  {
    if TrimSpace(destExpr) == "*" then ("*", 0) else (Canon(dest), dest.start)
  }

  /** Resolving the stored form gives the same ports. */
  lemma StoredResolves(listen: Span, destExpr: string, destPort: nat)
    requires listen.Valid() && destPort <= 65535 && ResolveDest(listen, destExpr, destPort).Some?
    ensures var d := ResolveDest(listen, destExpr, destPort).value;
            d.Valid() && var (expr, port) := StoredDest(destExpr, d); ResolveDest(listen, expr, port) == Some(d)
  {
    ResolvedFits(listen, destExpr, destPort);
    var d := ResolveDest(listen, destExpr, destPort).value;
    CanonParses(d);
    assert TrimSpace("*") == "*" by { TrimNothing("*"); }
  }
}
