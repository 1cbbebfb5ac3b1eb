/**
  The panel's reservations in the kernel's list of reserved ports
  (web/service/reserved_ports.go): whatever the panel asks for, over any number of
  syncs, the ports that others reserved stay exactly as they were.
 */
module ReservedPorts {
  import opened Strings
  import opened PortText

  // ---------------------------------------------------------------- merging

  function Wanted(want: set<int>): (ports: set<int>) {
    set p | p in want && IsPort(p)
  }

  function Merged(current: set<int>, oldOurs: set<int>, want: set<int>): (merged: set<int>) {
    (set p | p in current && (p !in oldOurs || p in want)) + Wanted(want)
  }

  function Ours(current: set<int>, oldOurs: set<int>, want: set<int>): (ours: set<int>) {
    set p | p in Wanted(want) && (p in oldOurs || p !in current)
  }

  /**
    mergeReserved: what is not ours afterwards is what was not ours before; everything
    wanted is reserved; and nothing is reserved that is neither.
   */
  lemma {:induction false} MergeConserves(current: set<int>, oldOurs: set<int>, want: set<int>)
    requires forall p | p in current :: IsPort(p)
    ensures Merged(current, oldOurs, want) - Ours(current, oldOurs, want) == current - oldOurs
    ensures Merged(current, oldOurs, want) == (current - oldOurs) + Wanted(want)
    ensures Ours(current, oldOurs, want) == Wanted(want) - (current - oldOurs)
  {
    var merged, ours, others := Merged(current, oldOurs, want), Ours(current, oldOurs, want), current - oldOurs;
    forall p ensures p in merged <==> p in others + Wanted(want) {
    }
    forall p ensures p in ours <==> p in Wanted(want) - others {
    }
    forall p ensures p in merged - ours <==> p in others {
    }
  }

  /**
    What the others are left with when the kernel's list holds their ports and the wanted
    ones, and the memory file says `memory`: exactly theirs if it names all of ours and
    none of theirs.
   */
  lemma {:induction false} OthersLeft(others: set<int>, wanted: set<int>, memory: set<int>)
    ensures (others + wanted) - memory == others <==> wanted - others <= memory && memory !! others
  {
    if (others + wanted) - memory == others {
      forall p | p in wanted - others ensures p in memory {
        assert p !in (others + wanted) - memory;
      }
      forall p | p in memory ensures p !in others {
        assert p !in (others + wanted) - memory;
      }
    }
    if wanted - others <= memory && memory !! others {
      forall p ensures p in (others + wanted) - memory <==> p in others {
      }
    }
  }

  // ---------------------------------------------------------------- the two files

  /** How a write of the kernel's list goes; a failed one changes nothing. */
  datatype Write = Done | ReadOnly | Failed

  /** How a write of the memory file goes; a failed one leaves the old text or any beginning of the new one. */
  datatype Memory = Saved | Untouched | Cut(length: nat)

  /** How far an update came: to a write of the memory file, with its text, or less far. */
  datatype Reached = NotTried | NotReserved | NothingToRemember | ToRemember(text: string)

  function Remembered(was: string, text: string, m: Memory): (now: string) {
    match m
    case Saved => text + "\n"
    case Untouched => was
    case Cut(n) => if n < |text + "\n"| then (text + "\n")[..n] else text + "\n"
  }

  class Reservations {
    /** The kernel's list, and the file that remembers which of it are the panel's. */
    var kernel: string
    var state: string
    var unwritable: bool

    constructor (kernel: string, state: string)
      ensures this.kernel == kernel && this.state == state && !unwritable
    {
      this.kernel, this.state := kernel, state;
      unwritable := false;
    }

    function Others(): (ports: set<int>)
      reads this
    {
      Ports(kernel) - Ports(state)
    }

    /**
      updateReservedPorts, with the answers of the file system: whether the kernel's list
      can be read, and how the two writes go if they are needed. Everyone else's ports are
      kept unless the memory file had to be written and was not; then exactly if what it
      now says names all of ours and none of theirs.
     */
    method Update(want: set<int> -> set<int>, readable: bool, first: Write, second: Memory) returns (r: Reached)
      modifies this
      ensures r.NotTried? <==> old(unwritable) || !readable
      ensures r.NotReserved? ==> !first.Done?
      ensures r.NotTried? || r.NotReserved? ==> kernel == old(kernel) && state == old(state)
      ensures unwritable <==> old(unwritable) || (r.NotReserved? && first.ReadOnly?)
      ensures
        var wanted := Wanted(want(old(Ports(state))));
        r.NothingToRemember? || r.ToRemember? ==>
          && Ports(kernel) == old(Others()) + wanted
          && (r.NothingToRemember? ==> state == old(state) && Ports(state) == wanted - old(Others()))
          && (r.ToRemember? ==>
                && Ports(r.text) == wanted - old(Others()) && (Ports(r.text) == {} ==> r.text == "")
                && state == Remembered(old(state), r.text, second)
                && (Others() == old(Others()) <==>
                      Ports(r.text) <= Ports(state) && Ports(state) !! old(Others()))
                && (second.Saved? ==> Ports(state) == Ports(r.text) && Others() == old(Others()))
                && (second.Untouched? ==> (Others() == old(Others()) <==> wanted <= old(Ports(state)) + old(Others()))))
      ensures !r.ToRemember? ==> Others() == old(Others())
    {
      if unwritable || !readable {
        return NotTried;
      }
      var cur, old_ := kernel, state;
      var current := ParsePortList(cur);
      var oldOurs := ParsePortList(old_);
      var wanted := want(oldOurs);
      var merged, ours := Merged(current, oldOurs, wanted), Ours(current, oldOurs, wanted);
      MergeConserves(current, oldOurs, wanted);
      PortsOfTrim(cur);
      PortsOfTrim(old_);
      var m := FormatPortList(merged);
      if m != Trim(cur) {
        if !first.Done? {
          unwritable := first.ReadOnly?;
          return NotReserved;
        }
        kernel := m + "\n";
      }
      var o := FormatPortList(ours);
      if o == Trim(old_) {
        return NothingToRemember;
      }
      state := Remembered(old_, o, second);
      OthersLeft(current - oldOurs, Wanted(wanted), Ports(state));
      return ToRemember(o);
    }

    /** Any sequence of syncs whose writes succeed keeps the others' ports; wanting nothing at the end leaves just those. */
    method SyncAll(wants: seq<set<int>>)
      requires !unwritable
      modifies this
      ensures Others() == old(Others()) && !unwritable
      ensures wants != [] ==> Ports(kernel) == Others() + Wanted(wants[|wants| - 1])
      ensures wants != [] ==> Ports(state) == Wanted(wants[|wants| - 1]) - Others()
    {
      for i := 0 to |wants|
        invariant Others() == old(Others()) && !unwritable
        invariant i > 0 ==> Ports(kernel) == Others() + Wanted(wants[i - 1])
        invariant i > 0 ==> Ports(state) == Wanted(wants[i - 1]) - Others()
      {
        var r := Update(_ => wants[i], true, Done, Saved);
      }
    }
  }

  // ---------------------------------------------------------------- writes of the memory file that are cut off

  /** The others keep their ports wherever the write is cut off exactly if nothing was ours to remember. */
  lemma {:induction false} CutAnywhere(text: string, others: set<int>)
    requires Ports(text) !! others && (Ports(text) == {} ==> text == "")
    ensures (forall n: nat :: Ports(text) <= Ports(Remembered("", text, Cut(n))) && Ports(Remembered("", text, Cut(n))) !! others)
       <==> Ports(text) == {}
  {
    PortsOfJoin([]);
    assert Join([]) == "" && "" + "\n" == "\n";
    if Ports(text) == {} {
      forall n: nat ensures Ports(Remembered("", text, Cut(n))) == {} {
        assert Remembered("", text, Cut(n)) == "" || Remembered("", text, Cut(n)) == "\n";
      }
    } else {
      assert Remembered("", text, Cut(0)) == "";
    }
  }

  /** A port that the panel reserved passes for someone else's if the memory file ends up empty. */
  lemma {:induction false} ForgottenPort()
    ensures
      var others: set<int>, wanted := {}, {443};
      Ports(Remembered("443\n", "443", Cut(0))) == {} && 443 in (others + wanted) - Ports(Remembered("443\n", "443", Cut(0)))
  {
    PortsOfJoin([]);
    assert Remembered("443\n", "443", Cut(0)) == "" == Join([]);
  }

  /** A number cut short is another port: remembered as the panel's, it is taken from whoever reserved it. */
  lemma {:induction false} CutNumber()
    ensures
      var others, wanted := {44}, {443};
      Ports(Remembered("", "443", Cut(2))) == {44} && 44 !in (others + wanted) - Ports(Remembered("", "443", Cut(2)))
  {
    TextOf44();
    assert "443" + "\n" == "443\n" && "443\n"[..2] == "44";
  }

  lemma {:induction false} TextOf44()
    ensures Ports("44") == {44}
  {
    Itoa44();
    PartTextIsClean(44, 44);
    PartRoundTrip(44, 44);
    OnePart(PartText(44, 44));
    assert Range(44, 44) == {44};
  }

  lemma {:induction false} Itoa44()
    ensures Itoa(44) == "44"
  {
    assert Itoa(4) == "4" && Itoa(44) == Itoa(4) + "4";
  }

  lemma {:induction false} OnePart(part: string)
    requires Clean(part)
    ensures Ports(part) == PartPorts(part)
  {
    var parts := [part];
    assert parts[1..] == [];
    PortsOfJoin(parts);
  }
}
