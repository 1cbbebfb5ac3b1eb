/** The few library functions on strings that the modelled code uses. */
module Strings {
  import opened Collections

  // ---------------------------------------------------------------- white space

  /** Unicode's White_Space, as strings.TrimSpace uses it. */
  predicate IsSpace(c: char) {
    var n := c as int;
    || 9 <= n <= 13 || n == 0x20 || n == 0x85 || n == 0xA0 || n == 0x1680
    || 0x2000 <= n <= 0x200A || n == 0x2028 || n == 0x2029 || n == 0x202F || n == 0x205F || n == 0x3000
  }

  function TrimLeft(s: string): (r: string)
    ensures r == [] || !IsSpace(r[0])
  {
    if s != [] && IsSpace(s[0]) then TrimLeft(s[1..]) else s
  }

  function TrimRight(s: string): (r: string)
    ensures r == [] || !IsSpace(r[|r| - 1])
    ensures r <= s
  {
    if s != [] && IsSpace(s[|s| - 1]) then TrimRight(s[..|s| - 1]) else s
  }

  function Trim(s: string): (r: string) {
    TrimRight(TrimLeft(s))
  }

  lemma {:induction false} TrimSame(s: string)
    requires s == [] || (!IsSpace(s[0]) && !IsSpace(s[|s| - 1]))
    ensures Trim(s) == s
  {
  }

  lemma {:induction false} TrimRightEnds(s: string)
    requires s == [] || !IsSpace(s[0])
    ensures TrimRight(s) == [] || !IsSpace(TrimRight(s)[0])
  {
    var r := TrimRight(s);
    if r != [] {
      assert r[0] == s[0];
    }
  }

  lemma {:induction false} TrimTwice(s: string)
    ensures Trim(Trim(s)) == Trim(s)
  {
    TrimRightEnds(TrimLeft(s));
    TrimSame(Trim(s));
  }

  lemma {:induction false} TrimNewline(s: string)
    requires s == [] || (!IsSpace(s[0]) && !IsSpace(s[|s| - 1]))
    ensures Trim(s + "\n") == s
  {
    var t := s + "\n";
    assert IsSpace('\n');
    if s == [] {
      assert t[1..] == [] && IsSpace(t[0]);
      assert TrimLeft(t) == [];
    } else {
      assert t[0] == s[0] && t[|t| - 1] == '\n' && t[..|t| - 1] == s;
      assert TrimLeft(t) == t && TrimRight(t) == TrimRight(s);
    }
  }

  // ---------------------------------------------------------------- decimal numbers

  predicate IsDigit(c: char) {
    '0' <= c <= '9'
  }

  function Digit(n: int): (c: char)
    requires 0 <= n < 10
    ensures IsDigit(c) && c as int - '0' as int == n
  {
    ('0' as int + n) as char
  }

  /** strconv.Itoa on what is not negative. */
  function Itoa(n: nat): (s: string)
    ensures s != [] && forall c | c in s :: IsDigit(c)
  {
    if n < 10 then [Digit(n)] else Itoa(n / 10) + [Digit(n % 10)]
  }

  function Decimal(s: string): (n: Option<nat>) {
    if s == [] then Some(0)
    else if !IsDigit(s[|s| - 1]) then None
    else match Decimal(s[..|s| - 1])
         case None => None
         case Some(n) => Some(10 * n + (s[|s| - 1] as int - '0' as int))
  }

  lemma {:induction false} DecimalOfItoa(n: nat)
    ensures Decimal(Itoa(n)) == Some(n)
  {
    if n < 10 {
      assert Itoa(n)[..0] == [];
    } else {
      DecimalOfItoa(n / 10);
      var s := Itoa(n);
      assert s[..|s| - 1] == Itoa(n / 10) && s[|s| - 1] == Digit(n % 10);
    }
  }

  /** fmt's %03d */
  function Pad(i: nat): (s: string) {
    (if i < 10 then "00" else if i < 100 then "0" else "") + Itoa(i)
  }

  /** Three digits wide, or as wide as the number. */
  lemma {:induction false} PadWidth(i: nat)
    ensures |Pad(i)| == if i < 1000 then 3 else |Itoa(i)|
  {
    if i >= 10 {
      assert |Itoa(i)| == |Itoa(i / 10)| + 1;
    }
    if i >= 100 {
      assert |Itoa(i / 10)| == |Itoa(i / 10 / 10)| + 1;
    }
  }

  lemma {:induction false} LeadingZero(s: string)
    ensures Decimal("0" + s) == Decimal(s)
  {
    var t := "0" + s;
    if s == [] {
      assert t[..0] == [];
    } else {
      LeadingZero(s[..|s| - 1]);
      assert t[|t| - 1] == s[|s| - 1] && t[..|t| - 1] == "0" + s[..|s| - 1];
    }
  }

  lemma {:induction false} PadIsNumber(i: nat)
    ensures Decimal(Pad(i)) == Some(i)
  {
    var s := Itoa(i);
    DecimalOfItoa(i);
    LeadingZero(s);
    LeadingZero("0" + s);
    assert "00" + s == "0" + ("0" + s) && "" + s == s;
  }

  lemma {:induction false} SameMiddle(a: string, x: string, y: string, b: string)
    requires a + (x + b) == a + (y + b)
    ensures x == y
  {
    assert (a + (x + b))[|a|..] == x + b && (a + (y + b))[|a|..] == y + b;
    assert (x + b)[..|x|] == x && (y + b)[..|y|] == y;
  }

  // ---------------------------------------------------------------- order

  /** The order of sort.Strings on valid text: by code points, a beginning before its continuations. */
  predicate Precedes(a: string, b: string) {
    b != [] && (a == [] || a[0] < b[0] || (a[0] == b[0] && Precedes(a[1..], b[1..])))
  }

  predicate AtMost(a: string, b: string) {
    a == b || Precedes(a, b)
  }

  lemma {:induction false} PrecedesTotal(a: string, b: string)
    ensures AtMost(a, b) || Precedes(b, a)
  {
    if a != [] && b != [] && a[0] == b[0] {
      PrecedesTotal(a[1..], b[1..]);
      assert a == [a[0]] + a[1..] && b == [b[0]] + b[1..];
    }
  }

  lemma {:induction false} PrecedesTransitive(a: string, b: string, c: string)
    requires Precedes(a, b) && Precedes(b, c)
    ensures Precedes(a, c)
  {
    if a != [] && a[0] == b[0] == c[0] {
      PrecedesTransitive(a[1..], b[1..], c[1..]);
    }
  }

  predicate Ascends(s: seq<string>) {
    forall i, j | 0 <= i < j < |s| :: AtMost(s[i], s[j])
  }

  function Insert(x: string, s: seq<string>): (r: seq<string>) {
    if s == [] then [x] else if AtMost(x, s[0]) then [x] + s else [s[0]] + Insert(x, s[1..])
  }

  /** sort.Strings */
  function Sorted(s: seq<string>): (r: seq<string>) {
    if s == [] then [] else Insert(s[0], Sorted(s[1..]))
  }

  lemma {:induction false} InsertBag(x: string, s: seq<string>)
    ensures multiset(Insert(x, s)) == multiset(s) + multiset{x}
  {
    if s != [] && !AtMost(x, s[0]) {
      InsertBag(x, s[1..]);
      assert s == [s[0]] + s[1..];
    }
  }

  lemma {:induction false} SortedBag(s: seq<string>)
    ensures multiset(Sorted(s)) == multiset(s)
  {
    if s != [] {
      SortedBag(s[1..]);
      InsertBag(s[0], Sorted(s[1..]));
      assert s == [s[0]] + s[1..];
    }
  }

  lemma {:induction false} InsertAscends(x: string, s: seq<string>)
    requires Ascends(s)
    ensures Ascends(Insert(x, s))
  {
    if s != [] {
      if AtMost(x, s[0]) {
        forall j | 0 <= j < |s| ensures AtMost(x, s[j]) {
          if x != s[0] && j > 0 && s[0] != s[j] {
            PrecedesTransitive(x, s[0], s[j]);
          }
        }
      } else {
        PrecedesTotal(x, s[0]);
        InsertAscends(x, s[1..]);
        var rest := Insert(x, s[1..]);
        forall j | 0 <= j < |rest| ensures AtMost(s[0], rest[j]) {
          InsertBag(x, s[1..]);
          assert rest[j] in multiset(rest);
          assert rest[j] == x || rest[j] in s[1..];
        }
      }
    }
  }

  lemma {:induction false} SortedAscends(s: seq<string>)
    ensures Ascends(Sorted(s))
  {
    if s != [] {
      SortedAscends(s[1..]);
      InsertAscends(s[0], Sorted(s[1..]));
    }
  }
}
