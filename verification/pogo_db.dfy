/**
 * The example extension's document store (example/my-ext/pogo/server/db.server.ts):
 * a single in-memory document, the `withDb` hand-off that lets one caller
 * at a time run a mutation and writes the file when the last caller leaves,
 * and the record mutations the RPCs perform. Dates are integer milliseconds
 * (the ISO strings parsed); the file write is the event that completes it.
 */
module PogoDb {
  import opened Results

  /** A pokedex entry; only the energy is written by the modelled mutations. */
  datatype Species = Species(megaEnergyAvailable: int, number: int, name: string)

  /** A caught pokemon; `name` is optional. */
  datatype Pokemon = Pokemon(
    id: string,
    pokemonId: int,
    megaCount: int,
    lastMegaStart: int,
    lastMegaEnd: int,
    name: Option<string>)

  /** PogoDb. */
  datatype Doc = Doc(pokedex: map<int, Species>, pokemon: map<string, Pokemon>, currentMega: Option<string>)

  const EmptyDb := Doc(map[], map[], None)

  // ---------------------------------------------------------------------
  // Mutations

  function Clamp(x: int, lo: int, hi: int): int
    requires lo <= hi
  {
    if x < lo then lo else if x > hi then hi else x
  }

  /** setPokemonMegaCountRpc's mutation: the count clamped to 0..30; an unknown id changes nothing. */
  function SetMegaCount(d: Doc, id: string, count: int): (r: Doc)
    ensures id !in d.pokemon ==> r == d
    ensures id in d.pokemon ==> (
      && r.pokemon.Keys == d.pokemon.Keys
      && 0 <= r.pokemon[id].megaCount <= 30
      && (0 <= count <= 30 ==> r.pokemon[id].megaCount == count)
      && (count < 0 ==> r.pokemon[id].megaCount == 0)
      && (count > 30 ==> r.pokemon[id].megaCount == 30)
      && r.pokemon[id] == d.pokemon[id].(megaCount := r.pokemon[id].megaCount))
    ensures r.pokedex == d.pokedex && r.currentMega == d.currentMega
    ensures forall k :: k in d.pokemon && k != id ==> k in r.pokemon && r.pokemon[k] == d.pokemon[k]
  {
    if id !in d.pokemon then d
    else d.(pokemon := d.pokemon[id := d.pokemon[id].(megaCount := Clamp(count, 0, 30))])
  }

  /** setPokemonMegaEnergyRpc's mutation: the energy, never below 0; an unknown dex entry changes nothing. */
  function SetMegaEnergy(d: Doc, pokemonId: int, megaEnergy: int): (r: Doc)
    ensures pokemonId !in d.pokedex ==> r == d
    ensures pokemonId in d.pokedex ==> (
      && r.pokedex.Keys == d.pokedex.Keys
      && r.pokedex[pokemonId].megaEnergyAvailable >= 0
      && r.pokedex[pokemonId].megaEnergyAvailable >= megaEnergy
      && (megaEnergy >= 0 ==> r.pokedex[pokemonId].megaEnergyAvailable == megaEnergy)
      && (megaEnergy < 0 ==> r.pokedex[pokemonId].megaEnergyAvailable == 0)
      && r.pokedex[pokemonId] == d.pokedex[pokemonId].(megaEnergyAvailable := r.pokedex[pokemonId].megaEnergyAvailable))
    ensures r.pokemon == d.pokemon && r.currentMega == d.currentMega
    ensures forall k :: k in d.pokedex && k != pokemonId ==> k in r.pokedex && r.pokedex[k] == d.pokedex[k]
  {
    if pokemonId !in d.pokedex then d
    else
      var e := if megaEnergy > 0 then megaEnergy else 0;
      d.(pokedex := d.pokedex[pokemonId := d.pokedex[pokemonId].(megaEnergyAvailable := e)])
  }

  /** deletePokemonRpc's mutation: that key and no other leaves the collection. */
  function DeletePokemon(d: Doc, id: string): (r: Doc)
    ensures r.pokemon.Keys == d.pokemon.Keys - {id}
    ensures forall k :: k in r.pokemon ==> r.pokemon[k] == d.pokemon[k]
    ensures r.pokedex == d.pokedex && r.currentMega == d.currentMega
  {
    d.(pokemon := d.pokemon - {id})
  }

  /** setNameRpc's mutation: the name is set exactly when the pokemon exists. */
  function SetName(d: Doc, id: string, name: string): (r: Doc)
    ensures id !in d.pokemon ==> r == d
    ensures id in d.pokemon ==> (
      && r.pokemon.Keys == d.pokemon.Keys
      && r.pokemon[id] == d.pokemon[id].(name := Some(name)))
    ensures r.pokedex == d.pokedex && r.currentMega == d.currentMega
    ensures forall k :: k in d.pokemon && k != id ==> k in r.pokemon && r.pokemon[k] == d.pokemon[k]
  {
    if id !in d.pokemon then d
    else d.(pokemon := d.pokemon[id := d.pokemon[id].(name := Some(name))])
  }

  /** HOUR_MS. */
  const HourMs := 60 * 60 * 1000

  /**
   * setPokemonMegaEndRpc's update of one pokemon: the end is set, and the
   * start moves to the new end when the new end is before the old start or
   * more than eight hours after it.
   */
  function MegaEndUpdate(p: Pokemon, newMegaEnd: int): (r: Pokemon)
    ensures r.lastMegaEnd == newMegaEnd
    ensures r.lastMegaStart != p.lastMegaStart ==> r.lastMegaStart == newMegaEnd
    ensures r.lastMegaStart == newMegaEnd <==>
      (newMegaEnd < p.lastMegaStart || newMegaEnd - 8 * HourMs > p.lastMegaStart || p.lastMegaStart == newMegaEnd)
    ensures r == p.(lastMegaEnd := r.lastMegaEnd, lastMegaStart := r.lastMegaStart)
  {
    var eightHoursBefore := newMegaEnd - 8 * HourMs;
    var start := p.lastMegaStart;
    var start1 := if newMegaEnd < start then newMegaEnd else start;
    var start2 := if eightHoursBefore > start then newMegaEnd else start1;
    p.(lastMegaEnd := newMegaEnd, lastMegaStart := start2)
  }

  /** setPokemonMegaEndRpc's mutation; an unknown id changes nothing. */
  function SetMegaEnd(d: Doc, id: string, newMegaEnd: int): (r: Doc)
    ensures id !in d.pokemon ==> r == d
    ensures id in d.pokemon ==> r.pokemon == d.pokemon[id := MegaEndUpdate(d.pokemon[id], newMegaEnd)]
    ensures r.pokedex == d.pokedex && r.currentMega == d.currentMega
  {
    if id !in d.pokemon then d
    else d.(pokemon := d.pokemon[id := MegaEndUpdate(d.pokemon[id], newMegaEnd)])
  }

  /** After a new end is set, the mega window ends there and lasts at most eight hours. */
  lemma MegaWindowBounded(p: Pokemon, newMegaEnd: int)
    ensures var q := MegaEndUpdate(p, newMegaEnd);
      newMegaEnd - 8 * HourMs <= q.lastMegaStart <= q.lastMegaEnd
  {
  }

  /** Setting the same end again changes nothing. */
  lemma SetMegaEndIdempotent(d: Doc, id: string, newMegaEnd: int)
    ensures SetMegaEnd(SetMegaEnd(d, id, newMegaEnd), id, newMegaEnd) == SetMegaEnd(d, id, newMegaEnd)
  {
    if id in d.pokemon {
      var q := MegaEndUpdate(d.pokemon[id], newMegaEnd);
      MegaWindowBounded(d.pokemon[id], newMegaEnd);
      assert MegaEndUpdate(q, newMegaEnd) == q;
    }
  }

  /** Setting the same count again changes nothing. */
  lemma SetMegaCountIdempotent(d: Doc, id: string, count: int)
    ensures SetMegaCount(SetMegaCount(d, id, count), id, count) == SetMegaCount(d, id, count)
  {
    if id in d.pokemon {
      var r := SetMegaCount(d, id, count);
      assert r.pokemon[id := r.pokemon[id]] == r.pokemon;
    }
  }

  /** A deleted pokemon can no longer be renamed, counted or given an end: those RPCs become no-ops. */
  lemma DeletedIsUntouchable(d: Doc, id: string, name: string, count: int, end: int)
    ensures var e := DeletePokemon(d, id);
      SetName(e, id, name) == e && SetMegaCount(e, id, count) == e && SetMegaEnd(e, id, end) == e
  {
  }

  // ---------------------------------------------------------------------
  // withDb

  /**
   * A caller of withDb with the mutation it runs on the document. The
   * mutation either returns the new document or throws; immer's `produce`
   * rethrows, so the throw rejects the whole call.
   */
  datatype Waiter = Waiter(caller: nat, mut: Doc -> Result<Doc, string>)

  /**
   * Who holds the document between two events: nobody (`dbAccessActive` is
   * false), a waiter that was woken and has not run yet, a caller awaiting
   * its write of `snapshot` to the file, or a caller whose mutation threw:
   * its call rejected with `dbAccessActive` still set, and nothing clears it.
   */
  datatype Phase = Free | Woken(w: Waiter) | Writing(caller: nat, snapshot: Doc) | Abandoned(caller: nat)

  /**
   * The module state: `DB`, `dbDirty`, `mutexQueue`, who holds the access
   * (`dbAccessActive` is `!phase.Free?`) and what the file last received.
   */
  datatype Cell = Cell(doc: Doc, dirty: bool, queue: seq<Waiter>, phase: Phase, written: Doc)

  /** The events the scheduler interleaves: a call, a woken waiter resuming, a write completing. */
  datatype Event = Call(w: Waiter) | Resume | WriteDone

  /** The state after the document was read from the file. */
  function Init(doc: Doc): Cell {
    Cell(doc, false, [], Free, doc)
  }

  predicate Enabled(s: Cell, e: Event) {
    match e
    case Call(_) => true
    case Resume => s.phase.Woken?
    case WriteDone => s.phase.Writing?
  }

  /**
   * The synchronous run of a caller holding the access: the mutation, then
   * handing over to the head of the queue, or else writing if dirty, or else
   * releasing. Immer's "same object" is value equality here. A mutation that
   * throws leaves the access held by nobody.
   */
  function Run(s: Cell, w: Waiter): (r: Cell)
    ensures w.mut(s.doc).Err? ==>
      r.phase == Abandoned(w.caller) && r.doc == s.doc && r.dirty == s.dirty && r.queue == s.queue
    ensures w.mut(s.doc).Ok? && w.mut(s.doc).value != s.doc ==>
      r.doc == w.mut(s.doc).value && (r.dirty || r.phase.Writing?)
    ensures w.mut(s.doc) == Ok(s.doc) ==> r.doc == s.doc && r.dirty == s.dirty
    ensures w.mut(s.doc).Ok? && |s.queue| > 0 ==> r.phase == Woken(s.queue[0]) && r.queue == s.queue[1..]
    ensures w.mut(s.doc).Ok? && |s.queue| == 0 ==> |r.queue| == 0 && (r.phase.Free? <==> !r.dirty)
    ensures r.written == s.written
  {
    match w.mut(s.doc)
    case Err(_) => s.(phase := Abandoned(w.caller))
    case Ok(newDoc) =>
      var s1 := if newDoc != s.doc then s.(doc := newDoc, dirty := true) else s;
      if |s1.queue| > 0 then s1.(phase := Woken(s1.queue[0]), queue := s1.queue[1..])
      else if s1.dirty then s1.(phase := Writing(w.caller, s1.doc))
      else s1.(phase := Free)
  }

  /** A call: it queues at the tail while the access is held, and runs at once otherwise. */
  function Enter(s: Cell, w: Waiter): (r: Cell)
    ensures !s.phase.Free? ==> r == s.(queue := s.queue + [w])
  {
    if !s.phase.Free? then s.(queue := s.queue + [w]) else Run(s, w)
  }

  /**
   * The events as written: once the write completes, dirty and active are
   * cleared whatever the queue holds.
   */
  function Step(s: Cell, e: Event): Cell
    requires Enabled(s, e)
  {
    match e
    case Call(w) => Enter(s, w)
    case Resume => Run(s, s.phase.w)
    case WriteDone => s.(written := s.phase.snapshot, dirty := false, phase := Free)
  }

  /** The events with the queue checked again after the write: a waiter that came during it is woken. */
  function StepFixed(s: Cell, e: Event): (r: Cell)
    requires Enabled(s, e)
    ensures e.WriteDone? ==> r.written == s.phase.snapshot && !r.dirty
    ensures e.WriteDone? && |s.queue| > 0 ==> r.phase == Woken(s.queue[0]) && r.queue == s.queue[1..]
    ensures e.WriteDone? && |s.queue| == 0 ==> r.phase.Free?
  {
    match e
    case WriteDone =>
      var s1 := s.(written := s.phase.snapshot, dirty := false);
      if |s1.queue| > 0 then s1.(phase := Woken(s1.queue[0]), queue := s1.queue[1..])
      else s1.(phase := Free)
    case _ => Step(s, e)
  }

  /**
   * What every reachable state should satisfy: nobody waits while the access
   * is free, a free store is clean, a clean document is what the file holds,
   * and a write in flight carries the current document.
   */
  ghost predicate Valid(s: Cell) {
    && (s.phase.Free? ==> |s.queue| == 0 && !s.dirty)
    && (!s.dirty ==> s.doc == s.written)
    && (s.phase.Writing? ==> s.dirty && s.phase.snapshot == s.doc)
  }

  lemma InitValid(doc: Doc)
    ensures Valid(Init(doc))
  {
  }

  /** With the queue checked after the write, every event keeps the state valid. */
  lemma StepFixedValid(s: Cell, e: Event)
    requires Valid(s) && Enabled(s, e)
    ensures Valid(StepFixed(s, e))
  {
    match e
    case Call(w) =>
      if s.phase.Free? {
        RunValid(s, w);
      }
    case Resume =>
      RunValid(s, s.phase.w);
    case WriteDone =>
  }

  lemma RunValid(s: Cell, w: Waiter)
    requires !s.dirty ==> s.doc == s.written
    requires s.phase.Free? ==> |s.queue| == 0
    ensures Valid(Run(s, w))
  {
  }

  /** In a valid state, an idle store has written everything: the file holds the document. */
  lemma IdleIsPersisted(s: Cell)
    requires Valid(s) && s.phase.Free?
    ensures s.written == s.doc && |s.queue| == 0
  {
  }

  /** A mutation that changes nothing never marks the store dirty and never writes. */
  lemma NoChangeNoWrite(s: Cell, w: Waiter)
    requires Valid(s) && s.phase.Free?
    requires w.mut(s.doc) == Ok(s.doc)
    ensures var r := StepFixed(s, Call(w)); r.phase.Free? && r.doc == s.doc && !r.dirty
  {
  }

  /** A call while a write is in flight is queued behind the waiters already there. */
  lemma CallDuringWriteQueues(s: Cell, w: Waiter)
    requires s.phase.Writing?
    ensures StepFixed(s, Call(w)).queue == s.queue + [w]
    ensures StepFixed(s, Call(w)).phase == s.phase
  {
  }

  // ---------------------------------------------------------------------
  // The stranded waiter

  /** addPokemonRpc's mutation with a fixed id and time: a new pokemon under `id`. */
  function AddPokemon(id: string): Doc -> Result<Doc, string> {
    (d: Doc) => Ok(d.(pokemon := d.pokemon[id := Pokemon(id, 0, 0, 0, 0, None)]))
  }

  /**
   * As written: a caller that queues while the first caller awaits its write
   * is left in the queue with nobody holding the access, so no event but a
   * new, unrelated call can ever run it.
   */
  lemma WaiterStranded(doc: Doc)
    requires "a" !in doc.pokemon
    ensures var w1 := Waiter(1, AddPokemon("a"));
      var w2 := Waiter(2, AddPokemon("b"));
      var s1 := Step(Init(doc), Call(w1));
      var s2 := Step(s1, Call(w2));
      && s1.phase.Writing?
      && s2.phase.Writing?
      && var s3 := Step(s2, WriteDone);
      s3.phase.Free? && |s3.queue| == 1 && s3.queue[0].caller == 2 && !Valid(s3)
  {
    var d1 := AddPokemon("a")(doc).value;
    assert "a" in d1.pokemon;
  }

  /**
   * As written, the stranded waiter is overtaken: the next caller finds the
   * access free, runs its own mutation first and only then wakes the waiter.
   */
  lemma StrandedWaiterOvertaken(s: Cell, w: Waiter)
    requires s.phase.Free? && |s.queue| > 0
    ensures var r := Step(s, Call(w));
      w.mut(s.doc).Ok? ==> r.doc == w.mut(s.doc).value && r.phase == Woken(s.queue[0])
    ensures var r := Step(s, Call(w));
      w.mut(s.doc).Err? ==> r.phase == Abandoned(w.caller) && r.queue == s.queue
  {
  }

  // ---------------------------------------------------------------------
  // A throwing mutation

  /** A run of calls, one after another, each through the events as written. */
  function Calls(s: Cell, ws: seq<Waiter>): Cell
    decreases |ws|
  {
    if ws == [] then s else Calls(Step(s, Call(ws[0])), ws[1..])
  }

  /**
   * Once a mutation has thrown, the access is never released: every later
   * call only queues, the document never changes, and no resume or write
   * event is possible any more.
   */
  lemma {:induction false} AbandonedForever(s: Cell, ws: seq<Waiter>)
    requires s.phase.Abandoned?
    ensures Calls(s, ws) == s.(queue := s.queue + ws)
    ensures !Enabled(Calls(s, ws), Resume) && !Enabled(Calls(s, ws), WriteDone)
    decreases |ws|
  {
    if ws != [] {
      var next := Step(s, Call(ws[0]));
      assert next == s.(queue := s.queue + [ws[0]]);
      AbandonedForever(next, ws[1..]);
      assert s.queue + [ws[0]] + ws[1..] == s.queue + ws;
    }
  }

  /**
   * A throwing mutation from an idle store strands every later caller:
   * each call queues behind the abandoned access and none of them runs.
   */
  lemma ThrowStrandsLaterCalls(s: Cell, w: Waiter, ws: seq<Waiter>)
    requires s.phase.Free? && |s.queue| == 0
    requires w.mut(s.doc).Err?
    ensures var r := Calls(Step(s, Call(w)), ws);
      r.phase == Abandoned(w.caller) && r.doc == s.doc && r.queue == ws
  {
    AbandonedForever(Step(s, Call(w)), ws);
  }

}
