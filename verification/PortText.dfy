/**
  Port lists as text, "1,3-5,8" (web/service/reserved_ports.go:44-90): what a text
  means, and that the text written for a set of ports means that set.
 */
module PortText {

  import opened Collections
  import opened Strings

  const MAX_PORT: int := 65535

  predicate IsPort(p: int) {
    1 <= p <= MAX_PORT
  }

  // ---------------------------------------------------------------- splitting and joining

  /** strings.Split(s, ","): never empty. */
  function Split(s: string): (parts: seq<string>)
    ensures parts != []
  {
    if s == [] then [[]]
    else
      var rest := Split(s[1..]);
      if s[0] == ',' then [[]] + rest else [[s[0]] + rest[0]] + rest[1..]
  }

  /** strings.Join(parts, ","). */
  function Join(parts: seq<string>): (s: string) {
    if parts == [] then []
    else if |parts| == 1 then parts[0]
    else parts[0] + "," + Join(parts[1..])
  }

  /** strings.Cut(s, "-"): what stands before the first dash, and after it if there is one. */
  function CutBefore(s: string): (r: string)
    ensures |r| <= |s|
  {
    if s == [] || s[0] == '-' then [] else [s[0]] + CutBefore(s[1..])
  }

  function CutAfter(s: string): (r: Option<string>) {
    if |CutBefore(s)| == |s| then None else Some(s[|CutBefore(s)| + 1..])
  }

  // ---------------------------------------------------------------- numbers

  /**
    strconv.Atoi. A number beyond the width of int, which it refuses, is no port and is
    refused as such below.
   */
  function Atoi(s: string): (n: Option<int>) {
    if s == [] then None
    else if s[0] == '-' || s[0] == '+' then
      if |s| == 1 then None
      else match Decimal(s[1..])
           case None => None
           case Some(n) => Some(if s[0] == '-' then 0 - n as int else n)
    else match Decimal(s)
         case None => None
         case Some(n) => Some(n)
  }

  lemma {:induction false} AtoiOfItoa(n: nat)
    ensures Atoi(Itoa(n)) == Some(n)
  {
    DecimalOfItoa(n);
    assert Itoa(n)[0] in Itoa(n);
  }

  /** A sign counts, alone it is no number, and after it comes nothing but digits. */
  lemma {:induction false} AtoiSigned(n: nat, s: string)
    ensures Atoi("+" + Itoa(n)) == Some(n) && Atoi("-" + Itoa(n)) == Some(0 - n as int)
    ensures Atoi("+") == Atoi("-") == Atoi("") == None
    ensures Atoi(s).Some? <==> exists d: string :: d != "" && Decimal(d).Some? && (s == d || s == "+" + d || s == "-" + d)
  {
    DecimalOfItoa(n);
    assert ("+" + Itoa(n))[1..] == Itoa(n) && ("-" + Itoa(n))[1..] == Itoa(n);
    if Atoi(s).Some? {
      var d := if s[0] == '-' || s[0] == '+' then s[1..] else s;
      assert d != "" && Decimal(d).Some? && (s == d || s == "+" + d || s == "-" + d);
    }
    if d: string :| d != "" && Decimal(d).Some? && (s == d || s == "+" + d || s == "-" + d) {
      DecimalStarts(d);
      assert s != d ==> s[1..] == d;
    }
  }

  lemma {:induction false} DecimalStarts(d: string)
    requires d != "" && Decimal(d).Some?
    ensures IsDigit(d[0])
  {
    if |d| > 1 {
      DecimalStarts(d[..|d| - 1]);
    }
  }

  // ---------------------------------------------------------------- what a text means

  function Range(lo: int, hi: int): (ports: set<int>)
    ensures forall p :: p in ports <==> lo <= p <= hi
    decreases hi - lo
  {
    if lo > hi then {} else Range(lo, hi - 1) + {hi}
  }

  function Elements(s: seq<int>): (ports: set<int>) {
    set p | p in s
  }

  /** The ports of one part between commas; a part that makes no sense has none. */
  function PartPorts(text: string): (ports: set<int>) {
    var part := Trim(text);
    if part == [] then {}
    else
      var lo := Atoi(CutBefore(part));
      var hi := if CutAfter(part).Some? then Atoi(CutAfter(part).value) else lo;
      if lo.None? || hi.None? || lo.value < 1 || hi.value > MAX_PORT || lo.value > hi.value then {}
      else Range(lo.value, hi.value)
  }

  function PartsPorts(parts: seq<string>): (ports: set<int>) {
    if parts == [] then {} else PartPorts(parts[0]) + PartsPorts(parts[1..])
  }

  function Ports(s: string): (ports: set<int>) {
    PartsPorts(Split(Trim(s)))
  }

  // ---------------------------------------------------------------- texts that need no trimming

  /** Digits and dashes only. */
  predicate Clean(s: string) {
    s != [] && forall c | c in s :: IsDigit(c) || c == '-'
  }

  lemma {:induction false} CleanEnds(s: string)
    requires Clean(s)
    ensures !IsSpace(s[0]) && !IsSpace(s[|s| - 1])
  {
    assert s[0] in s && s[|s| - 1] in s;
  }

  // ---------------------------------------------------------------- parts

  lemma {:induction false} CutDigits(a: string, b: string)
    requires forall c | c in a :: IsDigit(c)
    ensures CutBefore(a + "-" + b) == a && CutAfter(a + "-" + b) == Some(b)
  {
    CutBeforeDigits(a, "-" + b);
    assert a + ("-" + b) == a + "-" + b;
    assert (a + "-" + b)[|a| + 1..] == b;
  }

  lemma {:induction false} CutBeforeDigits(a: string, rest: string)
    requires forall c | c in a :: IsDigit(c)
    requires rest == [] || rest[0] == '-'
    ensures CutBefore(a + rest) == a
  {
    if a == [] {
      assert a + rest == rest;
    } else {
      assert a[0] in a;
      CutBeforeDigits(a[1..], rest);
      assert (a + rest)[1..] == a[1..] + rest;
    }
  }

  /** How formatPortList writes a run of ports. */
  function PartText(lo: nat, hi: nat): (s: string) {
    if lo == hi then Itoa(lo) else Itoa(lo) + "-" + Itoa(hi)
  }

  lemma {:induction false} PartTextIsClean(lo: nat, hi: nat)
    ensures Clean(PartText(lo, hi))
  {
    var s := PartText(lo, hi);
    forall c | c in s ensures IsDigit(c) || c == '-' {
      if lo != hi {
        assert c in Itoa(lo) || c in "-" || c in Itoa(hi);
      }
    }
  }

  /** Reading back a run gives the run. */
  lemma {:induction false} PartRoundTrip(lo: nat, hi: nat)
    requires 1 <= lo <= hi <= MAX_PORT
    ensures PartPorts(PartText(lo, hi)) == Range(lo, hi)
  {
    var s := PartText(lo, hi);
    PartTextIsClean(lo, hi);
    CleanEnds(s);
    TrimSame(s);
    AtoiOfItoa(lo);
    AtoiOfItoa(hi);
    if lo == hi {
      CutBeforeDigits(s, "");
      assert s + "" == s;
    } else {
      CutDigits(Itoa(lo), Itoa(hi));
    }
  }

  // ---------------------------------------------------------------- lists

  predicate AllClean(parts: seq<string>) {
    parts == [] || (Clean(parts[0]) && AllClean(parts[1..]))
  }

  lemma {:induction false} SplitPart(a: string, rest: string)
    requires Clean(a)
    ensures Split(a) == [a]
    ensures Split(a + "," + rest) == [a] + Split(rest)
  {
    assert a[0] in a;
    var t := a[1..];
    assert (a + "," + rest)[1..] == t + "," + rest;
    if t == [] {
      assert t + "," + rest == "," + rest && ("," + rest)[1..] == rest;
      assert ([""] + Split(rest))[1..] == Split(rest);
      assert a == [a[0]] + [];
    } else {
      SplitPart(t, rest);
      assert ([t] + Split(rest))[1..] == Split(rest);
      assert a == [a[0]] + t;
    }
  }

  lemma {:induction false} SplitJoin(parts: seq<string>)
    requires AllClean(parts) && parts != []
    ensures Split(Join(parts)) == parts
  {
    if |parts| == 1 {
      SplitPart(parts[0], "");
    } else {
      var rest := Join(parts[1..]);
      SplitJoin(parts[1..]);
      SplitPart(parts[0], rest);
      assert Join(parts) == parts[0] + "," + rest;
      assert [parts[0]] + parts[1..] == parts;
    }
  }

  lemma {:induction false} JoinEnds(parts: seq<string>)
    requires AllClean(parts) && parts != []
    ensures var s := Join(parts); s != [] && !IsSpace(s[0]) && !IsSpace(s[|s| - 1])
  {
    CleanEnds(parts[0]);
    if |parts| > 1 {
      JoinEnds(parts[1..]);
    }
  }

  /** A joined list of parts, with or without the newline it is written with, means the ports of the parts. */
  lemma {:induction false} PortsOfJoin(parts: seq<string>)
    requires AllClean(parts)
    ensures Ports(Join(parts)) == PartsPorts(parts) && Ports(Join(parts) + "\n") == PartsPorts(parts)
  {
    var s := Join(parts);
    if parts == [] {
      assert Split("") == [""] && [""][1..] == [];
    } else {
      JoinEnds(parts);
      SplitJoin(parts);
    }
    TrimSame(s);
    TrimNewline(s);
  }

  lemma {:induction false} PortsOfTrim(s: string)
    ensures Ports(Trim(s)) == Ports(s)
  {
    TrimTwice(s);
  }

  lemma {:induction false} PartsSnoc(parts: seq<string>, part: string)
    ensures PartsPorts(parts + [part]) == PartsPorts(parts) + PartPorts(part)
    ensures AllClean(parts) && Clean(part) ==> AllClean(parts + [part])
  {
    if parts == [] {
      assert parts + [part] == [part] && [part][1..] == [];
    } else {
      PartsSnoc(parts[1..], part);
      assert (parts + [part])[1..] == parts[1..] + [part];
    }
  }

  // ---------------------------------------------------------------- reading and writing

  /** parsePortList. */
  method ParsePortList(s: string) returns (out: set<int>)
    ensures out == Ports(s) && forall p | p in out :: IsPort(p)
  {
    out := {};
    var parts := Split(Trim(s));
    while parts != []
      invariant Ports(s) == out + PartsPorts(parts)
      invariant forall p | p in out :: IsPort(p)
      decreases |parts|
    {
      var own := ParsePart(parts[0]);
      out := out + own;
      parts := parts[1..];
    }
  }

  method ParsePart(text: string) returns (own: set<int>)
    ensures own == PartPorts(text) && forall p | p in own :: IsPort(p)
  {
    own := {};
    var part := Trim(text);
    if part == "" {
      return;
    }
    var lo := Atoi(CutBefore(part));
    var hi := lo;
    if CutAfter(part).Some? {
      hi := Atoi(CutAfter(part).value);
    }
    if lo.None? || hi.None? || lo.value < 1 || hi.value > MAX_PORT || lo.value > hi.value {
      return;
    }
    var p := lo.value;
    while p <= hi.value
      invariant lo.value <= p <= hi.value + 1
      invariant own == Range(lo.value, p - 1)
    {
      own := own + {p};
      p := p + 1;
    }
  }

  predicate Ascending(ports: seq<int>) {
    forall i, j | 0 <= i < j < |ports| :: ports[i] < ports[j]
  }

  /** The keys of a set of ports in the order sort.Ints puts them. */
  method SortPorts(ports: set<int>) returns (sorted: seq<int>)
    requires forall p | p in ports :: IsPort(p)
    ensures Ascending(sorted) && Elements(sorted) == ports && (ports == {} ==> sorted == [])
  {
    sorted := [];
    for p := 1 to MAX_PORT + 1
      invariant Ascending(sorted)
      invariant forall q :: q in sorted <==> q in ports && q < p
      invariant ports == {} ==> sorted == []
    {
      if p in ports {
        assert forall i | 0 <= i < |sorted| :: sorted[i] in sorted;
        sorted := sorted + [p];
      }
    }
  }

  /**
    formatPortList: what is written for a set of ports is read back as that set, also
    with the newline that goes into the file.
   */
  method FormatPortList(ports: set<int>) returns (text: string)
    requires forall p | p in ports :: IsPort(p)
    ensures Ports(text) == ports && Ports(text + "\n") == ports && (ports == {} ==> text == "")
  {
    var sorted := SortPorts(ports);
    var parts: seq<string> := [];
    var i := 0;
    while i < |sorted|
      invariant 0 <= i <= |sorted| && AllClean(parts) && (i == 0 ==> parts == [])
      invariant PartsPorts(parts) == Elements(sorted[..i])
    {
      var j := i;
      while j + 1 < |sorted| && sorted[j + 1] == sorted[j] + 1
        invariant i <= j < |sorted| && sorted[j] - sorted[i] == j - i
        decreases |sorted| - j
      {
        j := j + 1;
      }
      NextRun(ports, sorted, i, j);
      PartTextIsClean(sorted[i], sorted[j]);
      PartRoundTrip(sorted[i], sorted[j]);
      PartsSnoc(parts, PartText(sorted[i], sorted[j]));
      parts := parts + [if i == j then Itoa(sorted[i]) else Itoa(sorted[i]) + "-" + Itoa(sorted[j])];
      i := j + 1;
    }
    assert sorted[..i] == sorted;
    text := Join(parts);
    PortsOfJoin(parts);
  }

  lemma {:induction false} NextRun(ports: set<int>, sorted: seq<int>, i: nat, j: nat)
    requires Ascending(sorted) && i <= j < |sorted| && sorted[j] - sorted[i] == j - i
    requires Elements(sorted) == ports
    requires forall p | p in ports :: IsPort(p)
    ensures 1 <= sorted[i] <= sorted[j] <= MAX_PORT && (i == j <==> sorted[i] == sorted[j])
    ensures Elements(sorted[..j + 1]) == Elements(sorted[..i]) + Range(sorted[i], sorted[j])
  {
    assert sorted[i] in Elements(sorted) && sorted[j] in Elements(sorted);
    forall k | i <= k <= j ensures sorted[k] == sorted[i] + (k - i) {
      Steps(sorted, i, k);
      Steps(sorted, k, j);
    }
    assert sorted[..j + 1] == sorted[..i] + sorted[i..j + 1];
    forall p ensures p in sorted[i..j + 1] <==> p in Range(sorted[i], sorted[j]) {
      if p in Range(sorted[i], sorted[j]) {
        assert sorted[i..j + 1][p - sorted[i]] == p;
      }
    }
  }

  lemma {:induction false} Steps(sorted: seq<int>, i: nat, k: nat)
    requires Ascending(sorted) && i <= k < |sorted|
    ensures sorted[k] >= sorted[i] + (k - i)
  {
    if i < k {
      Steps(sorted, i, k - 1);
    }
  }
}
