/** The reassembly as the program runs it: tracks and interval lists updated in
    place, each method proved to do what the steps of `Reassembly` say. */
module InPlaceAssembly {
  import opened Wrappers
  import R = Reassembly
  import C = Coverage

  class Track {
    const block: R.Block
    const asked: nat
    const covered: C.Coverage
    var total: nat
    var declared: bool
    var bytes: Option<seq<byte>>

    ghost predicate Valid()
      reads this, covered
    {
      covered.Valid() && State().Valid()
    }

    /** The value this track stands for: its interval list as a set of positions. */
    ghost function State(): R.Track
      reads this, covered
    {
      R.Track(block, total, asked, declared, covered.Covered(), bytes)
    }

    constructor (block: R.Block, asked: nat)
      ensures Valid() && fresh(covered)
      ensures State() == R.NewTrack(block, asked)
    {
      this.block := block;
      this.asked := asked;
      covered := new C.Coverage();
      total, declared, bytes := 0, false, Some([]);
    }

    method Declare(total: nat) returns (r: Option<R.ReassemblyError>)
      requires Valid()
      modifies this, covered
      ensures Valid()
      ensures match R.Declare(old(State()), total)
        case Ok(t) => r == None && State() == t
        case Err(e) => r == Some(e) && State() == old(State())
    {
      if declared && total > this.total {
        return Some(R.RevisedUpward(block, this.total, total));
      }
      if total > asked {
        return Some(R.MoreThanAsked(block, total, asked));
      }
      ghost var was := State();
      if total < this.total {
        covered.Truncate(total);
      }
      if bytes.Some? {
        bytes := Some(R.Resized(bytes.value, total));
      }
      this.total, declared := total, true;
      R.DeclareKeepsValid(was, total);
      return None;
    }

    method Place(displacement: nat, payload: seq<byte>) returns (r: Option<R.ReassemblyError>)
      requires Valid()
      modifies this, covered
      ensures Valid()
      ensures match R.Place(old(State()), displacement, payload)
        case Ok(t) => r == None && State() == t
        case Err(e) => r == Some(e) && State() == old(State())
    {
      if |payload| == 0 {
        return None;
      }
      if displacement + |payload| > total {
        return Some(R.OutsideDeclaredRange(block, displacement, |payload|, total));
      }
      ghost var was := State();
      var taken := covered.Cover(displacement, |payload|);
      if !taken {
        return Some(R.Overlapping(block, displacement, |payload|));
      }
      if bytes.Some? {
        bytes := Some(R.Overwritten(bytes.value, displacement, payload));
      }
      R.PlaceKeepsValid(was, displacement, payload);
      return None;
    }

    method Complete() returns (all: bool)
      requires Valid()
      ensures all == State().Complete()
    {
      all := covered.Covers(total);
      all := declared && all;
    }

    method Release()
      requires Valid()
      modifies this
      ensures Valid() && State() == old(State()).(bytes := None)
    {
      bytes := None;
    }

    /** The bytes, handed over: empty where the buffer was released. */
    method Take() returns (taken: seq<byte>)
      requires Valid()
      modifies this
      ensures Valid() && State() == old(State()).(bytes := None)
      ensures taken == if old(bytes).Some? then old(bytes).value else []
    {
      taken := if bytes.Some? then bytes.value else [];
      bytes := None;
    }
  }

  class Assembly {
    const parameters: Track
    const data: Track
    var setup: seq<nat>
    var fragments: nat
    var empty: nat
    var buffered: bool

    ghost predicate Valid()
      reads this, parameters, parameters.covered, data, data.covered
    {
      && parameters != data && parameters.covered != data.covered
      && parameters.Valid() && data.Valid()
      && State().Valid()
    }

    ghost function State(): R.Assembly
      reads this, parameters, parameters.covered, data, data.covered
    {
      R.Assembly(parameters.State(), data.State(), setup, fragments, empty, buffered)
    }

    constructor (maxParameters: nat, maxData: nat)
      ensures Valid() && fresh(parameters) && fresh(parameters.covered) && fresh(data) && fresh(data.covered)
      ensures State() == R.New(maxParameters, maxData)
    {
      parameters := new Track(R.Parameters, maxParameters);
      data := new Track(R.Data, maxData);
      setup, fragments, empty, buffered := [], 0, 0, true;
    }

    method Release()
      requires Valid()
      modifies this, parameters, data
      ensures Valid() && State() == R.Release(old(State()))
    {
      parameters.Release();
      data.Release();
      setup, buffered := [], false;
    }

    /** The step of the specification, refusals and their order included; a refused
        fragment may leave the totals it declared behind. */
    method Accept(f: R.Fragment) returns (r: Result<R.Progress, R.ReassemblyError>)
      requires Valid()
      modifies this, parameters, parameters.covered, data, data.covered
      ensures Valid()
      ensures R.Step(State(), r) == R.Accept(old(State()), f)
    {
      if buffered {
        fragments := fragments + 1;
        if fragments > R.FRAGMENT_CAP {
          return Err(R.TooManyFragments(R.FRAGMENT_CAP));
        }
      }
      var refused := DeclareBoth(f);
      if refused.Some? {
        return Err(refused.value);
      }
      refused := PlaceBoth(f);
      if refused.Some? {
        return Err(refused.value);
      }
      r := Count(f);
    }

    method DeclareBoth(f: R.Fragment) returns (refused: Option<R.ReassemblyError>)
      requires Valid()
      modifies parameters, parameters.covered, data, data.covered
      ensures Valid()
      ensures R.Stage(State(), refused) == R.DeclareBoth(old(State()), f)
    {
      R.DeclareBothKeepsValid(State(), f);
      refused := parameters.Declare(f.parameters.total);
      if refused.None? {
        refused := data.Declare(f.data.total);
      }
    }

    method PlaceBoth(f: R.Fragment) returns (refused: Option<R.ReassemblyError>)
      requires Valid()
      modifies parameters, parameters.covered, data, data.covered
      ensures Valid()
      ensures R.Stage(State(), refused) == R.PlaceBoth(old(State()), f)
    {
      R.PlaceBothKeepsValid(State(), f);
      refused := parameters.Place(f.parameters.displacement, f.parameters.payload);
      if refused.None? {
        refused := data.Place(f.data.displacement, f.data.payload);
      }
    }

    /** The end of `Accept`: setup words, the no-progress guard, completeness. */
    method Count(f: R.Fragment) returns (r: Result<R.Progress, R.ReassemblyError>)
      requires Valid()
      modifies this
      ensures Valid()
      ensures R.Step(State(), r) == R.Counted(old(State()), f)
    {
      if f.setup != [] {
        setup := f.setup;
      }
      if buffered && f.parameters.payload == [] && f.data.payload == [] {
        empty := empty + 1;
        if empty > R.EMPTY_TOLERANCE {
          return Err(R.NoProgress);
        }
      }
      ghost var a := State();
      var progress := Progress();
      assert State() == a;
      return Ok(progress);
    }

    /** Whether both tracks are complete. */
    method Progress() returns (p: R.Progress)
      requires Valid()
      ensures p == State().Progress()
    {
      var ps := parameters.Complete();
      var ds := data.Complete();
      return if ps && ds then R.Complete else R.Continuing;
    }

    /** What has been placed, block by block, and the last setup words that were not
        empty. */
    method Finish() returns (words: seq<nat>, ps: seq<byte>, ds: seq<byte>)
      requires Valid()
      modifies this, parameters, data
      ensures words == old(setup)
      ensures ps == old(if parameters.bytes.Some? then parameters.bytes.value else [])
      ensures ds == old(if data.bytes.Some? then data.bytes.value else [])
      ensures old(buffered) ==> Some(ps) == old(parameters.bytes) && Some(ds) == old(data.bytes)
    {
      words := setup;
      setup := [];
      ps := parameters.Take();
      ds := data.Take();
    }
  }
}
