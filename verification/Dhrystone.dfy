/** The Dhrystone benchmark as it is run on the accelerator: procedures that work on shared
    variables, two arrays and two records that point to each other. `Int32` makes the absence
    of signed overflow part of every method. */
module Dhrystone {
  newtype Int32 = x: int | -0x8000_0000 <= x < 0x8000_0000

  datatype Ident = Ident1 | Ident2 | Ident3 | Ident4 | Ident5

  const SOME := "DHRYSTONE PROGRAM, SOME STRING"
  const FIRST := "DHRYSTONE PROGRAM, 1'ST STRING"
  const SECOND := "DHRYSTONE PROGRAM, 2'ND STRING"
  const THIRD := "DHRYSTONE PROGRAM, 3'RD STRING"

  class Rec {
    var ptrComp: Rec?
    var discr: Ident
    var enumComp: Ident
    var intComp: Int32
    var strComp: string

    constructor ()
      ensures ptrComp == null
    {
      ptrComp := null;
    }

    /** structassign(*this, *from) */
    method Assign(from: Rec)
      modifies this
      ensures ptrComp == old(from.ptrComp) && discr == old(from.discr) && enumComp == old(from.enumComp)
      ensures intComp == old(from.intComp) && strComp == old(from.strComp)
    {
      ptrComp, discr, enumComp := from.ptrComp, from.discr, from.enumComp;
      intComp, strComp := from.intComp, from.strComp;
    }
  }

  // ----- loops that end only under a condition ----------------------------------------------------

  /** The local of Proc_2 after k rounds of its loop, k > 0; `garbage` is its value before. */
  function EnumAfter(ch1: char, garbage: Ident, k: nat): Ident {
    if k == 0 then garbage
    else if ch1 == 'A' then Ident1
    else EnumAfter(ch1, garbage, k - 1)
  }

  predicate Ends(ch1: char, garbage: Ident, k: nat) {
    k > 0 && EnumAfter(ch1, garbage, k) == Ident1
  }

  /** Proc_2 returns if and only if the letter is 'A', unless the uninitialised local happens to
      hold the value that ends the loop. */
  lemma Proc2EndsIff(ch1: char, garbage: Ident)
    ensures (exists k: nat :: Ends(ch1, garbage, k)) <==> ch1 == 'A' || garbage == Ident1
  {
    if ch1 == 'A' || garbage == Ident1 {
      assert Ends(ch1, garbage, 1);
    } else {
      forall k: nat ensures !Ends(ch1, garbage, k) {
        EnumKept(ch1, garbage, k);
      }
    }
  }

  lemma {:induction false} EnumKept(ch1: char, garbage: Ident, k: nat)
    requires ch1 != 'A'
    ensures EnumAfter(ch1, garbage, k) == garbage
  {
    if k > 0 {
      EnumKept(ch1, garbage, k - 1);
    }
  }

  /** The index of Func_2 after k rounds of its loop. */
  function IndexAfter(a: string, b: string, k: nat): nat
    requires |a| > 2 && |b| > 3
  {
    if k == 0 then 2
    else
      var i := IndexAfter(a, b, k - 1);
      if i <= 2 && a[2] != b[3] then i + 1 else i
  }

  lemma {:induction false} IndexStuck(a: string, b: string, k: nat)
    requires |a| > 2 && |b| > 3 && a[2] == b[3]
    ensures IndexAfter(a, b, k) == 2
  {
    if k > 0 {
      IndexStuck(a, b, k - 1);
    }
  }

  /** Func_2 returns if and only if the two letters it compares differ. */
  lemma Func2EndsIff(a: string, b: string)
    requires |a| > 2 && |b| > 3
    ensures (exists k: nat :: IndexAfter(a, b, k) > 2) <==> a[2] != b[3]
  {
    if a[2] != b[3] {
      assert IndexAfter(a, b, 1) == 3;
    } else {
      forall k: nat ensures IndexAfter(a, b, k) == 2 {
        IndexStuck(a, b, k);
      }
    }
  }

  // ----- pure parts ---------------------------------------------------------------------------------

  function Func3(e: Ident): bool { e == Ident3 }

  /** What Proc_6 stores. */
  function Next(e: Ident, intGlob: Int32): Ident {
    match e
    case Ident1 => Ident1
    case Ident2 => if intGlob > 100 then Ident1 else Ident4
    case Ident3 => Ident2
    case Ident4 => Ident4
    case Ident5 => Ident3
  }

  method Proc6(e: Ident, intGlob: Int32) returns (r: Ident)
    ensures r == Next(e, intGlob)
  {
    r := e;
    if !Func3(e) {
      r := Ident4;
    }
    match e
    case Ident1 => r := Ident1;
    case Ident2 => r := if intGlob > 100 then Ident1 else Ident4;
    case Ident3 => r := Ident2;
    case Ident4 =>
    case Ident5 => r := Ident3;
  }

  predicate Fits(x: int) { -0x8000_0000 <= x < 0x8000_0000 }

  method Proc7(a: Int32, b: Int32) returns (r: Int32)
    requires Fits(a as int + 2) && Fits(a as int + b as int + 2)
    ensures r as int == a as int + b as int + 2
  {
    var loc := a + 2;
    r := b + loc;
  }

  /** strcmp(a, b) > 0 */
  ghost predicate Greater(a: string, b: string) {
    exists k: nat :: k < |a| && k <= |b| && (k == |b| || a[k] > b[k]) && forall i :: 0 <= i < k ==> a[i] == b[i]
  }

  method Strcmp(a: string, b: string) returns (greater: bool)
    ensures greater <==> Greater(a, b)
  {
    var k := 0;
    while k < |a| && k < |b| && a[k] == b[k]
      invariant k <= |a| && k <= |b| && forall i :: 0 <= i < k ==> a[i] == b[i]
    {
      k := k + 1;
    }
    greater := k < |a| && (k == |b| || a[k] > b[k]);
  }

  /** The elements of the matrix that Proc_8 writes. */
  predicate Written8(int1: int, i: int, j: int) {
    (i == int1 + 5 && int1 + 4 <= j <= int1 + 6) || (i == int1 + 25 && j == int1 + 5)
  }

  class Bench {
    const arr1: array<Int32>
    const arr2: array2<Int32>
    var ptrGlob: Rec
    var nextPtrGlob: Rec
    var intGlob: Int32
    var boolGlob: bool
    var ch1Glob: char
    var ch2Glob: char

    /** The arrays and variables start with arbitrary contents. */
    constructor (intGlob: Int32, boolGlob: bool, ch1: char, ch2: char)
      ensures arr1.Length == 50 && arr2.Length0 == 50 && arr2.Length1 == 50
      ensures fresh(arr1) && fresh(arr2) && fresh(ptrGlob) && fresh(nextPtrGlob) && ptrGlob != nextPtrGlob
      ensures this.intGlob == intGlob && this.boolGlob == boolGlob && ch1Glob == ch1 && ch2Glob == ch2
    {
      arr1 := new Int32[50];
      arr2 := new Int32[50, 50];
      nextPtrGlob := new Rec();
      ptrGlob := new Rec();
      this.intGlob, this.boolGlob, ch1Glob, ch2Glob := intGlob, boolGlob, ch1, ch2;
    }

    ghost predicate Shape()
      reads this
    {
      arr1.Length == 50 && arr2.Length0 == 50 && arr2.Length1 == 50 && ptrGlob != nextPtrGlob
    }

    /** Proc_3; what it stores through its pointer parameter is returned. Ptr_Glob is not null
        once the benchmark has set it. */
    method Proc3() returns (r: Rec?)
      requires Fits(intGlob as int + 12)
      modifies ptrGlob`intComp
      ensures r == ptrGlob.ptrComp && ptrGlob.intComp == intGlob + 12
    {
      r := ptrGlob.ptrComp;
      ptrGlob.intComp := Proc7(10, intGlob);
    }

    /** Proc_1(Ptr_Glob), whatever record Ptr_Glob points to, itself included. */
    method Proc1()
      requires ptrGlob.ptrComp != null && Fits(intGlob as int + 12)
      modifies ptrGlob, ptrGlob.ptrComp
      ensures ptrGlob.ptrComp == old(ptrGlob.ptrComp) && ptrGlob.discr == old(ptrGlob.discr)
      ensures ptrGlob.strComp == old(ptrGlob.strComp)
      ensures var next := old(ptrGlob.ptrComp);
              next.ptrComp == next && next.discr == old(ptrGlob.discr) && next.strComp == old(ptrGlob.strComp)
      ensures old(ptrGlob.ptrComp).enumComp ==
              var e := old(ptrGlob.enumComp); if old(ptrGlob.discr) == Ident1 then Next(e, intGlob) else e
      ensures old(ptrGlob.ptrComp) != ptrGlob ==>
                var first, next := old(ptrGlob.discr) == Ident1, old(ptrGlob.ptrComp);
                && ptrGlob.enumComp == old(ptrGlob.enumComp)
                && ptrGlob.intComp == (if first then intGlob + 12 else 5) && next.intComp == if first then 18 else 5
      ensures old(ptrGlob.ptrComp) == ptrGlob ==>
                ptrGlob.intComp == if old(ptrGlob.discr) == Ident1 then 18 else intGlob + 12
    {
      var next := ptrGlob.ptrComp;
      next.Assign(ptrGlob);
      ptrGlob.intComp := 5;
      next.intComp := ptrGlob.intComp;
      next.ptrComp := ptrGlob.ptrComp;
      next.ptrComp := Proc3();
      if next.discr == Ident1 {
        next.intComp := 6;
        next.enumComp := Proc6(ptrGlob.enumComp, intGlob);
        next.ptrComp := ptrGlob.ptrComp;
        next.intComp := Proc7(next.intComp, 10);
      } else {
        ptrGlob.Assign(next);
      }
    }

    method Proc2(int1: Int32) returns (r: Int32)
      requires ch1Glob == 'A' && Fits(int1 as int + 10) && Fits(int1 as int + 9 - intGlob as int)
      ensures r == int1 + 9 - intGlob
    {
      var loc := int1 + 10;
      r := int1;
      var again := true;
      while again
        invariant again ==> loc == int1 + 10
        invariant !again ==> r == int1 + 9 - intGlob
        decreases again
      {
        if ch1Glob == 'A' {
          loc := loc - 1;
          r := loc - intGlob;
          again := false;
        }
      }
    }

    method Proc4()
      modifies this`boolGlob, this`ch2Glob
      ensures boolGlob == (ch1Glob == 'A' || old(boolGlob)) && ch2Glob == 'B'
    {
      boolGlob := ch1Glob == 'A' || boolGlob;
      ch2Glob := 'B';
    }

    method Proc5()
      modifies this`ch1Glob, this`boolGlob
      ensures ch1Glob == 'A' && !boolGlob
    {
      ch1Glob := 'A';
      boolGlob := false;
    }

    method Proc8(int1: Int32, int2: Int32)
      requires Shape() && -4 <= int1 <= 14 && arr2[int1 + 5, int1 + 4] < 0x7fff_ffff
      modifies this`intGlob, arr1, arr2
      ensures intGlob == 5
      ensures arr1[int1 + 5] == int2 && arr1[int1 + 6] == int2 && arr1[int1 + 35] == int1 + 5
      ensures forall i :: 0 <= i < 50 && i - int1 as int !in {5, 6, 35} ==> arr1[i] == old(arr1[i])
      ensures arr2[int1 + 5, int1 + 4] == old(arr2[int1 + 5, int1 + 4]) + 1
      ensures arr2[int1 + 5, int1 + 5] == int1 + 5 && arr2[int1 + 5, int1 + 6] == int1 + 5
      ensures arr2[int1 + 25, int1 + 5] == int2
      ensures forall i, j | 0 <= i < 50 && 0 <= j < 50 && !Written8(int1 as int, i, j) ::
                arr2[i, j] == old(arr2[i, j])
    {
      var loc := int1 + 5;
      arr1[loc] := int2;
      arr1[loc + 1] := arr1[loc];
      arr1[loc + 30] := loc;
      var index := loc;
      while index <= loc + 1
        invariant loc <= index <= loc + 2
        invariant forall j :: loc as int <= j < index as int ==> arr2[loc, j] == loc
        invariant forall i, j | 0 <= i < 50 && 0 <= j < 50 && !(i == loc as int && loc as int <= j < index as int) ::
                    arr2[i, j] == old(arr2[i, j])
        modifies arr2
      {
        arr2[loc, index] := loc;
        index := index + 1;
      }
      arr2[loc, loc - 1] := arr2[loc, loc - 1] + 1;
      arr2[loc + 20, loc] := arr1[loc];
      intGlob := 5;
    }

    method Func1(a: char, b: char) returns (r: Ident)
      modifies this`ch1Glob
      ensures r == if a != b then Ident1 else Ident2
      ensures ch1Glob == if a != b then old(ch1Glob) else a
    {
      if a != b {
        return Ident1;
      }
      ch1Glob := a;
      return Ident2;
    }

    method Func2(a: string, b: string) returns (r: bool)
      requires |a| > 2 && |b| > 3 && a[2] != b[3]
      modifies this`ch1Glob, this`intGlob
      ensures r <==> Greater(a, b)
      ensures ch1Glob == old(ch1Glob) && intGlob == if r then 10 else old(intGlob)
    {
      var loc, ch := 2, 'A';
      while loc <= 2
        invariant 2 <= loc <= 3 && ch == 'A' && ch1Glob == old(ch1Glob)
        modifies this`ch1Glob
      {
        var e := Func1(a[loc], b[loc + 1]);
        if e == Ident1 {
          ch := 'A';
          loc := loc + 1;
        }
      }
      if 'W' <= ch < 'Z' {
        loc := 7;
      }
      if ch == 'R' {
        return true;
      }
      r := Strcmp(a, b);
      if r {
        loc := loc + 7;
        intGlob := loc as Int32;
      }
    }

    /** The state that every round of the main loop starts from and comes back to. */
    ghost predicate Linked()
      reads this, ptrGlob
    {
      && Shape() && ptrGlob.ptrComp == nextPtrGlob
      && ptrGlob.discr == Ident1 && ptrGlob.enumComp == Ident3 && ptrGlob.strComp == SOME
    }

    /** The values the program prints and says they should have, for the shared variables. */
    ghost predicate Table(runs: int)
      reads this, ptrGlob, nextPtrGlob, arr1, arr2
    {
      && Linked() && nextPtrGlob.ptrComp == ptrGlob.ptrComp
      && intGlob == 5 && boolGlob && ch1Glob == 'A' && ch2Glob == 'B'
      && arr1[8] == 7 && arr2[8, 7] as int == runs + 10
      && ptrGlob.intComp == 17
      && nextPtrGlob.discr == Ident1 && nextPtrGlob.enumComp == Ident2 && nextPtrGlob.intComp == 18
      && nextPtrGlob.strComp == SOME
    }

    /** The part of a round up to Proc_8. */
    method Begin() returns (int1: Int32, int2: Int32, int3: Int32)
      requires Shape()
      modifies this`intGlob, this`boolGlob, this`ch1Glob, this`ch2Glob
      ensures int1 == 3 && int2 == 3 && int3 == 7 && boolGlob && ch1Glob == 'A' && ch2Glob == 'B'
    {
      Proc5();
      Proc4();
      int1, int2, int3 := 2, 3, 0;
      assert FIRST[2] == 'R' && SECOND[3] == 'Y';
      var greater := Func2(FIRST, SECOND);
      NotGreater();
      boolGlob := !greater;
      while int1 < int2
        invariant 2 <= int1 <= 3 == int2 && (int1 == 3 ==> int3 == 7)
        modifies {}
      {
        int3 := 5 * int1 - int2;
        int3 := Proc7(int1, int2);
        int1 := int1 + 1;
      }
    }

    /** The loop over the letters: it changes something only for Ident_1. */
    method Letters(run: Int32, enum0: Ident, i2: Int32, s2: string)
      returns (enumLoc: Ident, int2: Int32, str2: string)
      requires ch2Glob == 'B'
      modifies this`intGlob, this`ch1Glob
      ensures ch1Glob == old(ch1Glob) && enumLoc == enum0
      ensures enum0 == Ident1 ==> int2 == run && intGlob == run && str2 == THIRD
      ensures enum0 != Ident1 ==> int2 == i2 && intGlob == old(intGlob) && str2 == s2
    {
      enumLoc, int2, str2 := enum0, i2, s2;
      var ch := 'A';
      while ch <= ch2Glob
        invariant 'A' <= ch <= 'C' && ch1Glob == old(ch1Glob) && enumLoc == enum0
        invariant enum0 == Ident1 && ch > 'A' ==> int2 == run && intGlob == run && str2 == THIRD
        invariant enum0 != Ident1 ==> int2 == i2 && intGlob == old(intGlob) && str2 == s2
        decreases 'C' as int - ch as int
      {
        var e := Func1(ch, 'C');
        if enumLoc == e {
          enumLoc := Proc6(Ident1, intGlob);
          str2 := THIRD;
          int2 := run;
          intGlob := run;
        }
        ch := (ch as int + 1) as char;
      }
    }

    /** The part of a round after Proc_1. */
    method Finish(run: Int32, i1: Int32, i2: Int32, int3: Int32)
      returns (int1: Int32, int2: Int32, enumLoc: Ident, str2: string)
      requires i1 == 3 && i2 == 3 && int3 == 7 && intGlob == 5 && ch1Glob == 'A' && ch2Glob == 'B'
      modifies this`intGlob, this`ch1Glob
      ensures int1 == 5 && int2 == 13 && enumLoc == Ident2 && str2 == SECOND
      ensures intGlob == 5 && ch1Glob == 'A'
    {
      enumLoc, int2, str2 := Letters(run, Ident2, i2, SECOND);
      int2 := int2 * i1;
      int1 := int2 / int3;
      int2 := 7 * (int2 - int3) - int1;
      int1 := Proc2(int1);
    }

    /** dhrystone_bench for a number of runs: no int overflows, every inner loop ends, and the
        variables end with the documented values. */
    method Run(runs: Int32)
      returns (int1: Int32, int2: Int32, int3: Int32, enumLoc: Ident, str1: string, str2: string)
      requires 1 <= runs <= 0x7fff_ffff - 10
      requires Shape()
      modifies this, ptrGlob, nextPtrGlob, arr1, arr2
      ensures Table(runs as int)
      ensures int1 == 5 && int2 == 13 && int3 == 7 && enumLoc == Ident2 && str1 == FIRST && str2 == SECOND
    {
      ptrGlob.ptrComp := nextPtrGlob;
      ptrGlob.discr, ptrGlob.enumComp, ptrGlob.intComp, ptrGlob.strComp := Ident1, Ident3, 40, SOME;
      str1 := FIRST;
      arr2[8, 7] := 10;
      int1, int2, int3, enumLoc, str2 := 0, 0, 0, Ident1, "";
      var run: Int32 := 1;
      while run <= runs
        invariant 1 <= run <= runs + 1 && Linked() && ptrGlob == old(ptrGlob) && nextPtrGlob == old(nextPtrGlob)
        invariant arr2[8, 7] as int == run as int + 9
        invariant run > 1 ==> Table(run as int - 1)
        invariant run > 1 ==> int1 == 5 && int2 == 13 && int3 == 7 && enumLoc == Ident2 && str2 == SECOND
      {
        var i1, i2;
        i1, i2, int3 := Begin();
        Proc8(i1, int3);
        Proc1();
        int1, int2, enumLoc, str2 := Finish(run, i1, i2, int3);
        run := run + 1;
      }
    }
  }

  lemma NotGreater()
    ensures !Greater(FIRST, SECOND)
  {
    assert FIRST[19] == '1' && SECOND[19] == '2';
  }
}
