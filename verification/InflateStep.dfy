/**
 What every mode of inflate has to leave behind, put together once: a step taken, or
 nothing changed but bytes pulled.
 */
module InflateStep {
  import opened DecodeTable
  import opened CodeLookup
  import opened InflateSpec
  import opened InflateRuns
  import opened InflateWindow
  import opened BitReader
  import opened InflateState
  import Adler32

  /** Steps taken leave a state that is in order. */
  lemma Landed(z: Inflater, a: State)
    requires z.Shape() && z.reader.Valid() && Ok(a) && Leads(z.setup, a, z.Abs())
    requires z.reader.bits < 8 || z.mode.BAD?
    requires |z.lcode| <= 288 && |z.dcode| <= 32 && z.Tables() && z.Aligned() && z.Past()
    ensures z.Valid()
  {
    hide Step, Ok, Inflater.Shape, Inflater.Tables, Inflater.Past, Inflater.Aligned, Leads, Below;
    assert z.start <= z.put <= z.out.Length by { Bounds(z); }
    LeadsOk(z.setup, a, z.Abs());
    z.HeldOk();
  }

  /** A step taken leaves a state that is in order. */
  lemma Settled(z: Inflater, a: State)
    requires z.Shape() && z.reader.Valid() && Ok(a) && Step(z.setup, a) == Next(z.Abs())
    requires z.reader.bits < 8 || z.mode.BAD?
    requires |z.lcode| <= 288 && |z.dcode| <= 32 && z.Tables() && z.Aligned() && z.Past()
    ensures z.Valid() && Leads(z.setup, a, z.Abs()) && Below(z.Abs(), a)
  {
    hide Step, Ok, Inflater.Shape, Inflater.Tables, Inflater.Past, Inflater.Aligned, Leads, Below;
    assert z.start <= z.put <= z.out.Length by { Bounds(z); }
    LeadsStep(z.setup, a, z.Abs());
    Landed(z, a);
  }

  lemma Bounds(z: Inflater)
    requires z.Shape()
    ensures z.start <= z.put <= z.out.Length
  {
  }

  /** A mode that needs nothing that the mode before it did not have. */
  ghost predicate Follows(m: Mode, m': Mode) {
    && (Live(m') ==> Live(m)) && !Opening(m) && !Opening(m') && !m.BAD?
    && (m' == CODELENS ==> m == CODELENS) && (InBlock(m') ==> InBlock(m))
  }

  /** Nothing but registers has changed. */
  twostate predicate OnlyRegisters(z: Inflater)
    reads z, z.win, z.win.window, z.out
  {
    && z.start <= z.put <= z.out.Length && z.start == old(z.start) && z.out == old(z.out) && z.history == old(z.history)
    && z.check == old(z.check) && z.lencode == old(z.lencode) && z.lenbits == old(z.lenbits)
    && z.distcode == old(z.distcode) && z.distbits == old(z.distbits) && z.lcode == old(z.lcode)
        && z.dcode == old(z.dcode)
    && unchanged(z.win) && unchanged(z.win.window)
  }

  twostate lemma Carried(z: Inflater)
    requires old(z.Shape() && |z.lcode| <= 288 && |z.dcode| <= 32 && z.Tables() && z.Past())
    requires OnlyRegisters(z) && Follows(old(z.mode), z.mode)
    ensures z.Shape() && |z.lcode| <= 288 && |z.dcode| <= 32 && z.Tables() && z.Past()
  {
    hide Ok, Step, TableFor, Keeps, Adler32.Check, FixedTables.Right;
  }

  lemma Here(c: Setup, a: State)
    requires Ok(a)
    ensures Leads(c, a, a)
  {
  }

  /** What a mode starts from. */
  lemma Begun(z: Inflater)
    requires z.Valid()
    ensures z.reader.Valid() && z.start <= z.put <= z.out.Length && Ok(z.Abs()) && Ok(z.HeldState())
    ensures z.reader.bits < 8 || z.mode.BAD? || Step(z.setup, z.HeldState()) == NeedInput
    ensures z.Aligned() && Leads(z.setup, z.Abs(), z.Abs()) && z.out != z.win.window
    ensures |z.lcode| <= 288 && |z.dcode| <= 32 && z.Tables() && z.Shape() && z.Past()
  {
    hide Ok, Step, TableFor, Keeps;
    Here(z.setup, z.Abs());
  }

  /** The same when there are new tables. */
  twostate lemma CarriedPast(z: Inflater)
    requires old(z.Shape()) && old(z.Past()) && unchanged(z.win) && unchanged(z.win.window)
    requires z.put == old(z.put) && z.start == old(z.start) && z.out == old(z.out) && z.history == old(z.history)
    requires z.check == old(z.check) && (Live(z.mode) ==> Live(old(z.mode)))
    requires !Opening(old(z.mode)) && !Opening(z.mode) && !old(z.mode).BAD?
    ensures z.Shape() && z.Past()
  {
    hide Keeps, Adler32.Check, FixedTables.Right;
  }

  /** Only bytes were pulled, and there are too few. */
  twostate lemma Starved(z: Inflater)
    requires old(z.Valid()) && OnlyRegisters(z) && old(z.mode) == z.mode && unchanged(z) && unchanged(z.out)
    requires z.reader.Valid() && z.reader.next == |z.reader.input| && z.Aligned()
    requires z.reader.Rest() == old(z.reader.Rest())
    requires Ok(z.HeldState()) ==> Step(z.setup, z.HeldState()) == NeedInput
    ensures z.Valid() && z.Waiting() && z.Abs() == old(z.Abs()) && Leads(z.setup, old(z.Abs()), z.Abs())
  {
    hide Ok, Step, TableFor, Keeps, Adler32.Check, FixedTables.Right, BitReader.Rest;
    assert z.Abs() == old(z.Abs());
    z.HeldOk();
    Here(z.setup, z.Abs());
  }

  /** Only the bits held have changed, and the state is on the way. */
  twostate lemma Pulled(z: Inflater)
    requires old(z.Valid()) && OnlyRegisters(z) && unchanged(z) && unchanged(z.out)
    requires z.reader.Valid() && Leads(z.setup, old(z.Abs()), z.Abs()) && z.Aligned()
    requires Ok(z.HeldState()) ==> z.reader.bits < 8 || z.mode.BAD? || Step(z.setup, z.HeldState()) == NeedInput
    ensures z.Valid()
  {
    hide Step, TableFor, Keeps, Adler32.Check, FixedTables.Right, BitReader.Rest, Finish, Below, GoodCode;
    LeadsOk(z.setup, old(z.Abs()), z.Abs());
    z.HeldOk();
  }

  /** state->mode = m, when that completes a step. */
  method Move(z: Inflater, m: Mode, ghost a: State)
    requires z.Shape() && z.Past() && |z.lcode| <= 288 && |z.dcode| <= 32 && z.Tables() && z.reader.Valid()
    requires (z.reader.bits < 8 || m.BAD?) && Follows(z.mode, m) && m != COPY && m != CHECK && m != DONE && Ok(a)
    requires Step(z.setup, a) == Next(z.Abs().(mode := m))
    modifies z`mode
    ensures z.Valid() && z.mode == m && Leads(z.setup, a, z.Abs()) && Below(z.Abs(), a)
  {
    hide Step, Ok, Leads, Below, Finish, TableFor, Keeps, Adler32.Check, FixedTables.Right, BitReader.Rest,
      Inflater.Produced;
    z.mode := m;
    Settled(z, a);
  }
}
