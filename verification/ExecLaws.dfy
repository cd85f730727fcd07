/** What a program finds when it starts: its counts, its pointers and its strings. */
module ExecLaws {
  import opened Exec

  predicate Octets(mem: seq<int>) { forall a | 0 <= a < |mem| :: 0 <= mem[a] < 0x100 }

  /** A long is stored low byte first. */
  lemma LongIs(mem: seq<int>, a: nat)
    requires Octets(mem) && a + 4 <= |mem|
    ensures var v := Long(mem, a);
            && 0 <= v < 0x1_0000_0000 && mem[a] == v % 0x100 && mem[a + 1] == v / 0x100 % 0x100
            && mem[a + 2] == v / 0x1_0000 % 0x100 && mem[a + 3] == v / 0x100_0000
  {
    Digits(mem[a], mem[a + 1] + 0x100 * mem[a + 2] + 0x1_0000 * mem[a + 3]);
    Digits(mem[a + 1], mem[a + 2] + 0x100 * mem[a + 3]);
    Digits(mem[a + 2], mem[a + 3]);
    Shifts(Long(mem, a));
    hide Octets;
  }

  lemma Digits(low: int, high: int)
    requires 0 <= low < 0x100 && 0 <= high
    ensures (low + 0x100 * high) % 0x100 == low && (low + 0x100 * high) / 0x100 == high
  {}

  lemma Shifts(v: int)
    ensures v / 0x1_0000 == v / 0x100 / 0x100 && v / 0x100_0000 == v / 0x100 / 0x100 / 0x100
  {}

  /** The i-th pointer of a table. */
  function Pointer(mem: seq<int>, table: int, i: int): int { Long(mem, table + 4 * i) }

  /** A table of pointers to these strings, ended by NULL. */
  predicate Lists(mem: seq<int>, table: int, strs: seq<seq<int>>) {
    (forall i | 0 <= i < |strs| :: StringAt(mem, Pointer(mem, table, i), strs[i])) && Pointer(mem, table, |strs|) == 0
  }

  lemma LaidLists(mem: seq<int>, sp: int, p: int, args: seq<seq<int>>, env: seq<seq<int>>)
    requires Laid(mem, sp, p, args, env)
    ensures Long(mem, sp) == |args| && Lists(mem, Long(mem, sp + 4), args) && Lists(mem, Long(mem, sp + 8), env)
  {
    hide Long, StringAt;
    forall i | 0 <= i < |args| ensures StringAt(mem, Pointer(mem, sp + 12, i), args[i]) { assert Points(mem, sp + 12, i, p, args[i]); }
    forall i | 0 <= i < |env| ensures StringAt(mem, Pointer(mem, Long(mem, sp + 8), i), env[i]) {
      assert Points(mem, Long(mem, sp + 8), i, p, env[i]);
    }
  }

  /** argc, argv and envp of a program: argv points to argc strings and NULL, envp to the environment and NULL. */
  lemma ProgramSees(mem: seq<int>, sp: int, filename: seq<int>, args: seq<seq<int>>, env: seq<seq<int>>)
    requires StartedWell(mem, sp, None, filename, args, env)
    ensures Long(mem, sp) == |args| && Lists(mem, Long(mem, sp + 4), args) && Lists(mem, Long(mem, sp + 8), env)
  {
    hide Laid, Packed, Long, Lists;
    LaidLists(mem, sp, LIMIT - 4 - |Packed(AllStrings(None, filename, args, env))|, args, env);
  }

  /** The interpreter of a script finds its own name, the argument from the script's first line if there is one, the
      script's file name, and what the script was called with but for its first argument. */
  lemma InterpreterSees(mem: seq<int>, sp: int, name: seq<int>, arg: seq<seq<int>>, filename: seq<int>, args: seq<seq<int>>,
                        env: seq<seq<int>>)
    requires StartedWell(mem, sp, Bang(name, arg), filename, args, env) && args != [] && |arg| <= 1
    ensures var argc, argv, k := Long(mem, sp), Long(mem, sp + 4), 1 + |arg|;
            && argc == k + |args|
            && StringAt(mem, Pointer(mem, argv, 0), name)
            && (arg != [] ==> StringAt(mem, Pointer(mem, argv, 1), arg[0]))
            && StringAt(mem, Pointer(mem, argv, k), filename)
            && (forall j | 1 <= j < |args| :: StringAt(mem, Pointer(mem, argv, k + j), args[j]))
            && Pointer(mem, argv, argc) == 0 && Lists(mem, Long(mem, sp + 8), env)
  {
    var script, k := Bang(name, arg), 1 + |arg|;
    var list := Wanted(script, filename, args);
    hide Laid, Packed, Long, StringAt, Pointer;
    LaidLists(mem, sp, LIMIT - 4 - |Packed(AllStrings(script, filename, args, env))|, list, env);
    assert |list| == k + |args| && list[0] == name && list[k] == filename && (arg != [] ==> list[1] == arg[0]);
    forall j | 1 <= j < |args| ensures StringAt(mem, Pointer(mem, Long(mem, sp + 4), k + j), args[j]) {
      assert list[k + j] == args[j];
    }
  }
}
