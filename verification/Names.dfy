/** Method names as C strings: what `strcmp` tells apart (`src/transaction/tx_call_contract.c`). */
module Names {
  import opened Bytes
  import opened TxMachine

  /** What a C string function sees of `b`: the bytes before the first NUL. */
  function UntilNul(b: seq<Byte>): seq<Byte> {
    if b == [] || b[0] == 0 then [] else [b[0]] + UntilNul(b[1..])
  }

  /** `b` as a C string is `s`. */
  predicate Named(b: seq<Byte>, s: string) { Spells(UntilNul(b), s) }

  /** A text without a NUL, of characters of one byte. */
  predicate Plain(s: string) { forall i :: 0 <= i < |s| ==> 0 < s[i] as int < 256 }

  predicate Begins(b: seq<Byte>, s: string) {
    |s| <= |b| && forall i :: 0 <= i < |s| ==> b[i] == s[i] as int
  }

  lemma {:induction false} NamedExactly(b: seq<Byte>, s: string)
    requires Plain(s) && |s| < |b|
    ensures Named(b, s) <==> Begins(b, s) && b[|s|] == 0
  {
    if s != "" {
      var t, c := s[1..], b[1..];
      NamedExactly(c, t);
      assert Begins(b, s) <==> b[0] == s[0] as int && Begins(c, t) by { BeginsStep(b, s); }
      if b[0] != 0 {
        SpellsStep(b[0], UntilNul(c), s);
      }
    }
  }

  lemma BeginsStep(b: seq<Byte>, s: string)
    requires s != "" && b != []
    ensures Begins(b, s) <==> b[0] == s[0] as int && Begins(b[1..], s[1..])
  {
    if b[0] == s[0] as int && Begins(b[1..], s[1..]) {
      forall i | 0 <= i < |s| ensures b[i] == s[i] as int {
        if i > 0 {
          assert b[1..][i - 1] == s[1..][i - 1] as int;
        }
      }
    }
  }

  lemma SpellsStep(c: Byte, b: seq<Byte>, s: string)
    requires s != ""
    ensures Spells([c] + b, s) <==> c == s[0] as int && Spells(b, s[1..])
  {
    if c == s[0] as int && Spells(b, s[1..]) {
      forall i | 0 <= i < |s| ensures ([c] + b)[i] == s[i] as int {
        if i > 0 {
          assert b[i - 1] == s[1..][i - 1] as int;
        }
      }
    }
    if Spells([c] + b, s) {
      assert ([c] + b)[0] == c;
      forall i | 0 <= i < |b| ensures b[i] == s[1..][i] as int {
        assert ([c] + b)[i + 1] == b[i];
      }
    }
  }

  /** `strcmp` on the name at `at`: it stops at the first difference, at the latest behind `name`. */
  method StrEqual(mem: array<Byte>, at: nat, name: string) returns (equal: bool)
    requires Plain(name) && at + |name| < mem.Length
    ensures equal == Named(mem[at..], name)
  {
    var i := 0;
    while i < |name| && mem[at + i] == name[i] as int
      invariant 0 <= i <= |name| && Begins(mem[at..], name[..i])
    {
      i := i + 1;
    }
    equal := i == |name| && mem[at + i] == 0;
    NamedExactly(mem[at..], name);
    assert name[..|name|] == name;
  }

  lemma Literals()
    ensures Plain("transfer") && Spells(TRANSFER, "transfer")
    ensures Plain("transferFrom") && Spells(TRANSFER_FROM, "transferFrom")
  {
  }

  lemma CStringIsNamed(mem: seq<Byte>, at: nat, d: seq<Byte>, name: string)
    requires Plain(name) && Spells(d, name) && at + |name| < |mem|
    ensures CStringIs(mem, at, d) <==> Named(mem[at..], name)
  {
    NamedExactly(mem[at..], name);
    if CStringIs(mem, at, d) {
      forall i | 0 <= i < |name| ensures mem[at..][i] == name[i] as int {
        assert mem[at..at + |d|][i] == d[i];
      }
    }
    if Begins(mem[at..], name) {
      assert mem[at..at + |d|] == d;
    }
  }

  /** The two names are told from all others, and from each other. */
  lemma StyleOfMemory(s: State)
    requires s.call.methodName.Pos() + 12 < |s.arena.mem|
    ensures StyleOf(s).Transfer? <==> Named(s.arena.mem[s.call.methodName.Pos()..], "transfer")
    ensures StyleOf(s).TransferFrom? <==> Named(s.arena.mem[s.call.methodName.Pos()..], "transferFrom")
  {
    hide CStringIs;
    var at := s.call.methodName.Pos();
    Literals();
    CStringIsNamed(s.arena.mem, at, TRANSFER, "transfer");
    CStringIsNamed(s.arena.mem, at, TRANSFER_FROM, "transferFrom");
    NotBoth(s.arena.mem[at..]);
  }

  lemma NotBoth(b: seq<Byte>)
    ensures !(Named(b, "transfer") && Named(b, "transferFrom"))
  {
  }

  /** NULs behind a name change nothing. */
  lemma {:induction false} Padded(b: seq<Byte>, n: nat)
    ensures UntilNul(b + Zeros(n)) == UntilNul(b)
  {
    if b == [] {
      assert b + Zeros(n) == Zeros(n);
    } else {
      Padded(b[1..], n);
      assert (b + Zeros(n))[1..] == b[1..] + Zeros(n);
    }
  }
}
