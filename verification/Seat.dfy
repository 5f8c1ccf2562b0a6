/** Who holds which key and button down (`src/inject.rs`, `SeatHeld`), and the
    stream of transitions the seat's clients get to see. */
module Seat {
  type Code = nat

  datatype HeldInput = HeldInput(keys: set<Code>, buttons: set<Code>)

  datatype InputSource = Physical(device: string) | Injected

  datatype Held = Key | Button

  const NOTHING := HeldInput({}, {})

  function Of(kind: Held, input: HeldInput): set<Code> {
    match kind
    case Key => input.keys
    case Button => input.buttons
  }

  function With(kind: Held, input: HeldInput, codes: set<Code>): HeldInput {
    match kind
    case Key => input.(keys := codes)
    case Button => input.(buttons := codes)
  }

  // ----- what is delivered -----

  datatype Transition = Transition(kind: Held, code: Code, pressed: bool)

  /** What a client that folds the stream believes about one code. */
  function Down(stream: seq<Transition>, kind: Held, code: Code): bool {
    if stream == [] then false
    else
      var last := stream[|stream| - 1];
      if last.kind == kind && last.code == code then last.pressed
      else Down(stream[..|stream| - 1], kind, code)
  }

  /** Every transition in the stream changes what its receiver believes. */
  ghost predicate Effective(stream: seq<Transition>) {
    forall i :: 0 <= i < |stream| ==> Down(stream[..i], stream[i].kind, stream[i].code) != stream[i].pressed
  }

  predicate SameCode(a: Transition, b: Transition) {
    a.kind == b.kind && a.code == b.code
  }

  lemma {:induction false} LastOfCode(stream: seq<Transition>, i: nat, j: nat)
    requires i < j <= |stream|
    requires forall k :: i < k < j ==> !SameCode(stream[i], stream[k])
    ensures Down(stream[..j], stream[i].kind, stream[i].code) == stream[i].pressed
  {
    assert stream[..j][..j - 1] == stream[..j - 1];
    if i < j - 1 {
      LastOfCode(stream, i, j - 1);
    }
  }

  /** An effective stream alternates down and up for each code: two transitions
      of one code with none of that code between them differ. */
  lemma EffectiveAlternates(stream: seq<Transition>, i: nat, j: nat)
    requires Effective(stream) && i < j < |stream| && SameCode(stream[i], stream[j])
    requires forall k :: i < k < j ==> !SameCode(stream[i], stream[k])
    ensures stream[i].pressed != stream[j].pressed
  {
    LastOfCode(stream, i, j);
  }

  lemma {:induction false} UntouchedIsUp(stream: seq<Transition>, kind: Held, code: Code)
    requires forall k :: 0 <= k < |stream| ==> stream[k].kind != kind || stream[k].code != code
    ensures !Down(stream, kind, code)
  {
    if stream != [] {
      UntouchedIsUp(stream[..|stream| - 1], kind, code);
    }
  }

  /** And the first transition of a code is a press. */
  lemma FirstIsPress(stream: seq<Transition>, j: nat)
    requires Effective(stream) && j < |stream|
    requires forall k :: 0 <= k < j ==> !SameCode(stream[j], stream[k])
    ensures stream[j].pressed
  {
    UntouchedIsUp(stream[..j], stream[j].kind, stream[j].code);
  }

  // ----- who holds what -----

  class SeatHeld {
    var physical: map<string, HeldInput>
    var injected: HeldInput

    constructor ()
      ensures Valid()
      ensures forall s, k, c :: !Holds(s, k, c)
    {
      physical, injected := map[], NOTHING;
    }

    /** No device entry is ever empty. */
    ghost predicate Valid()
      reads this
    {
      forall d :: d in physical ==> physical[d].keys != {} || physical[d].buttons != {}
    }

    function HeldOf(source: InputSource): HeldInput
      reads this
    {
      match source
      case Physical(device) => if device in physical then physical[device] else NOTHING
      case Injected => injected
    }

    predicate Holds(source: InputSource, kind: Held, code: Code)
      reads this
    {
      code in Of(kind, HeldOf(source))
    }

    /** The union: some source holds `code`. */
    ghost predicate Union(kind: Held, code: Code)
      reads this
    {
      exists s :: Holds(s, kind, code)
    }

    predicate HeldByAny(kind: Held, code: Code)
      reads this
      ensures HeldByAny(kind, code) <==> Union(kind, code)
    {
      var r := code in Of(kind, injected) || exists d :: d in physical && code in Of(kind, physical[d]);
      assert r ==> Union(kind, code) by {
        if code in Of(kind, injected) {
          assert Holds(Injected, kind, code);
        } else if r {
          var d :| d in physical && code in Of(kind, physical[d]);
          assert Holds(Physical(d), kind, code);
        }
      }
      r
    }

    predicate HeldByOther(source: InputSource, kind: Held, code: Code)
      reads this
      ensures HeldByOther(source, kind, code) <==> exists s :: s != source && Holds(s, kind, code)
    {
      var r := (source != Injected && code in Of(kind, injected))
        || exists d :: d in physical && source != Physical(d) && code in Of(kind, physical[d]);
      assert r ==> exists s :: s != source && Holds(s, kind, code) by {
        if source != Injected && code in Of(kind, injected) {
          assert Holds(Injected, kind, code);
        } else if r {
          var d :| d in physical && source != Physical(d) && code in Of(kind, physical[d]);
          assert Holds(Physical(d), kind, code);
        }
      }
      r
    }

    /** Record a transition from `source`. Delivered exactly when it changes the
        union, and then to what the union has become. */
    method Note(source: InputSource, kind: Held, code: Code, pressed: bool) returns (deliver: bool)
      requires Valid()
      modifies this
      ensures Valid()
      ensures forall s, k, c :: Holds(s, k, c) ==
                if s == source && k == kind && c == code then pressed else old(Holds(s, k, c))
      ensures deliver <==> old(Union(kind, code)) != Union(kind, code)
      ensures deliver ==> Union(kind, code) == pressed
      ensures forall k, c :: k != kind || c != code ==> Union(k, c) == old(Union(k, c))
    {
      var own := HeldOf(source);
      var codes := Of(kind, own);
      var changed := if pressed then code !in codes else code in codes;
      own := With(kind, own, if pressed then codes + {code} else codes - {code});
      match source {
        case Physical(device) =>
          if own.keys == {} && own.buttons == {} {
            physical := physical - {device};
          } else {
            physical := physical[device := own];
          }
        case Injected =>
          injected := own;
      }
      assert forall s, k, c :: Holds(s, k, c) ==
               if s == source && k == kind && c == code then pressed else old(Holds(s, k, c));
      var other := HeldByOther(source, kind, code);
      deliver := changed && !other;
      assert Holds(source, kind, code) == pressed;
      assert changed <==> old(Holds(source, kind, code)) != pressed;
      if other {
        var s :| s != source && Holds(s, kind, code);
        assert old(Holds(s, kind, code));
        assert Union(kind, code) && old(Union(kind, code));
      } else {
        assert Union(kind, code) == pressed;
        assert old(Holds(source, kind, code)) ==> old(Union(kind, code));
        if old(Union(kind, code)) {
          var s :| old(Holds(s, kind, code));
          assert s == source || Holds(s, kind, code);
        }
      }
      forall k, c | k != kind || c != code ensures Union(k, c) == old(Union(k, c)) {
        if Union(k, c) {
          var s :| Holds(s, k, c);
          assert old(Holds(s, k, c));
        }
        if old(Union(k, c)) {
          var s :| old(Holds(s, k, c));
          assert Holds(s, k, c);
        }
      }
    }

    /** Forget everything `source` holds. Returns exactly the union before minus
        the union after. */
    method Release(source: InputSource) returns (freed: HeldInput)
      requires Valid()
      modifies this
      ensures Valid()
      ensures forall s, k, c :: Holds(s, k, c) <==> s != source && old(Holds(s, k, c))
      ensures forall k, c :: c in Of(k, freed) <==> old(Union(k, c)) && !Union(k, c)
      ensures forall k, c :: Union(k, c) ==> old(Union(k, c))
    {
      var taken := HeldOf(source);
      match source {
        case Physical(device) => physical := physical - {device};
        case Injected => injected := NOTHING;
      }
      freed := HeldInput(
        set c | c in taken.keys && !HeldByAny(Key, c),
        set c | c in taken.buttons && !HeldByAny(Button, c));
      forall k, c ensures Union(k, c) ==> old(Union(k, c)) {
        if Union(k, c) {
          var s :| Holds(s, k, c);
          assert old(Holds(s, k, c));
        }
      }
      forall k, c ensures c in Of(k, freed) <==> old(Union(k, c)) && !Union(k, c) {
        assert c in Of(k, taken) <==> old(Holds(source, k, c));
        if old(Union(k, c)) && !Union(k, c) {
          var s :| old(Holds(s, k, c));
          assert s == source || Holds(s, k, c);
        }
      }
    }
  }

  // ----- the seat: holdings and deliveries together -----

  datatype Event =
    | Input(source: InputSource, kind: Held, code: Code, pressed: bool)
    | ReleaseAll(source: InputSource)

  /** Whether `source` holds the code after `events`, from its own events alone. */
  function HeldAfter(events: seq<Event>, source: InputSource, kind: Held, code: Code): bool {
    if events == [] then false
    else
      var before := HeldAfter(events[..|events| - 1], source, kind, code);
      match events[|events| - 1]
      case Input(s, k, c, pressed) => if s == source && k == kind && c == code then pressed else before
      case ReleaseAll(s) => s != source && before
  }

  lemma {:induction false} FindLeast(s: set<Code>) returns (m: Code)
    requires s != {}
    ensures m in s && forall o :: o in s ==> m <= o
  {
    var x :| x in s;
    var rest := s - {x};
    m := x;
    if rest != {} {
      var l := FindLeast(rest);
      m := if l < x then l else x;
    }
    forall o | o in s ensures m <= o {
      assert o == x || o in rest;
    }
  }

  lemma LeastExists(s: set<Code>)
    requires s != {}
    ensures exists m :: m in s && forall o :: o in s ==> m <= o
  {
    var m := FindLeast(s);
  }

  function Least(s: set<Code>): (m: Code)
    requires s != {}
    ensures m in s && forall o :: o in s ==> m <= o
  {
    LeastExists(s);
    var m :| m in s && forall o :: o in s ==> m <= o;
    m
  }

  class Seat {
    const held: SeatHeld
    /** Every transition dispatched to clients so far. */
    var delivered: seq<Transition>

    constructor ()
      ensures Valid() && fresh(held)
      ensures forall s, k, c :: !held.Holds(s, k, c)
    {
      held := new SeatHeld();
      delivered := [];
    }

    /** The stream never repeats itself, and folding it gives the union. */
    ghost predicate Valid()
      reads this, held
    {
      && held.Valid()
      && Effective(delivered)
      && forall k, c :: Down(delivered, k, c) <==> held.Union(k, c)
    }

    method Deliver(kind: Held, code: Code, pressed: bool)
      requires Effective(delivered) && Down(delivered, kind, code) != pressed
      modifies this
      ensures delivered == old(delivered) + [Transition(kind, code, pressed)]
      ensures Effective(delivered)
      ensures forall k, c :: Down(delivered, k, c) ==
                if k == kind && c == code then pressed else old(Down(delivered, k, c))
    {
      delivered := delivered + [Transition(kind, code, pressed)];
      assert delivered[..|delivered| - 1] == old(delivered);
      forall i | 0 <= i < |delivered|
        ensures Down(delivered[..i], delivered[i].kind, delivered[i].code) != delivered[i].pressed
      {
        assert delivered[..i] == old(delivered)[..i];
      }
    }

    method Transit(source: InputSource, kind: Held, code: Code, pressed: bool)
      requires Valid()
      modifies this, held
      ensures Valid()
      ensures delivered == old(delivered) +
                if old(held.Union(kind, code)) != held.Union(kind, code) then [Transition(kind, code, pressed)] else []
      ensures forall s, k, c :: held.Holds(s, k, c) ==
                if s == source && k == kind && c == code then pressed else old(held.Holds(s, k, c))
    {
      var deliver := held.Note(source, kind, code, pressed);
      assert Down(delivered, kind, code) == old(held.Union(kind, code));
      if deliver {
        Deliver(kind, code, pressed);
      }
    }

    /** Send the releases of `codes`, least first. */
    method ReleaseCodes(kind: Held, codes: set<Code>)
      requires Effective(delivered) && forall c :: c in codes ==> Down(delivered, kind, c)
      modifies this
      ensures Effective(delivered)
      ensures forall k, c :: Down(delivered, k, c) <==> old(Down(delivered, k, c)) && !(k == kind && c in codes)
      ensures |delivered| == |old(delivered)| + |codes| && old(delivered) <= delivered
    {
      var rest := codes;
      while rest != {}
        invariant rest <= codes && Effective(delivered)
        invariant forall k, c :: Down(delivered, k, c) <==>
                    old(Down(delivered, k, c)) && !(k == kind && c in codes - rest)
        invariant |delivered| == |old(delivered)| + |codes| - |rest| && old(delivered) <= delivered
      {
        var c := Least(rest);
        Deliver(kind, c, false);
        rest := rest - {c};
      }
    }

    /** Release what `source` holds and no other source does: one up per code the
        seat no longer holds, keys before buttons. */
    method ReleaseHeldBy(source: InputSource) returns (freed: HeldInput)
      requires Valid()
      modifies this, held
      ensures Valid()
      ensures forall k, c :: c in Of(k, freed) <==> old(held.Union(k, c)) && !held.Union(k, c)
      ensures |delivered| == |old(delivered)| + |freed.keys| + |freed.buttons| && old(delivered) <= delivered
      ensures forall s, k, c :: held.Holds(s, k, c) <==> s != source && old(held.Holds(s, k, c))
    {
      freed := held.Release(source);
      forall c | c in freed.keys ensures Down(delivered, Key, c) {
        assert c in Of(Key, freed);
      }
      ReleaseCodes(Key, freed.keys);
      forall c | c in freed.buttons ensures Down(delivered, Button, c) {
        assert c in Of(Button, freed);
      }
      ReleaseCodes(Button, freed.buttons);
      forall k, c ensures Down(delivered, k, c) <==> held.Union(k, c) {
        assert c in Of(k, freed) <==> old(held.Union(k, c)) && !held.Union(k, c);
      }
    }

    /** Any number of sources, any interleaving: what clients believe is held is
        the union of what each source, judged by its own events, holds. */
    method Play(events: seq<Event>)
      requires Valid() && forall s, k, c :: !held.Holds(s, k, c)
      modifies this, held
      ensures Valid()
      ensures forall s, k, c :: held.Holds(s, k, c) == HeldAfter(events, s, k, c)
      ensures forall k, c :: Down(delivered, k, c) <==> exists s :: HeldAfter(events, s, k, c)
    {
      for i := 0 to |events|
        invariant Valid()
        invariant forall s, k, c :: held.Holds(s, k, c) == HeldAfter(events[..i], s, k, c)
      {
        assert events[..i + 1][..i] == events[..i];
        match events[i]
        case Input(source, kind, code, pressed) => Transit(source, kind, code, pressed);
        case ReleaseAll(source) => var _ := ReleaseHeldBy(source);
      }
      assert events[..|events|] == events;
      forall k, c ensures held.Union(k, c) <==> exists s :: HeldAfter(events, s, k, c) {
        if held.Union(k, c) {
          var s :| held.Holds(s, k, c);
          assert HeldAfter(events, s, k, c);
        }
        if exists s :: HeldAfter(events, s, k, c) {
          var s :| HeldAfter(events, s, k, c);
          assert held.Holds(s, k, c);
        }
      }
    }
  }
}
