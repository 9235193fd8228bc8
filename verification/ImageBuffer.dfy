// The few photos held in memory. The front one is on screen; the generation
// number is how the reconciler tells that it has changed.
module ImageBuffer {
  import opened Wrappers
  import opened RenderedImages

  const BUFFER_CAPACITY: nat := 3
  const GENERATIONS: nat := 0x1_0000_0000_0000_0000

  datatype Reserve = Reserve(buffer: seq<RenderedImage>, generation: nat)

  function Bump(generation: nat): nat {
    (generation + 1) % GENERATIONS
  }

  /** The buffer with room made for one more by dropping the last spare. */
  function MakeRoom(buffer: seq<RenderedImage>): (b: seq<RenderedImage>)
    ensures b <= buffer && |buffer| - 1 <= |b|
    ensures |buffer| < BUFFER_CAPACITY ==> b == buffer
  {
    if |buffer| >= BUFFER_CAPACITY then buffer[..|buffer| - 1] else buffer
  }

  predicate AlreadyShowing(buffer: seq<RenderedImage>, image: RenderedImage) {
    image.id.Some? && buffer != [] && buffer[0].id == image.id
  }

  function Show(r: Reserve, image: RenderedImage): Reserve {
    if AlreadyShowing(r.buffer, image) then r
    else Reserve([image] + MakeRoom(r.buffer), Bump(r.generation))
  }

  function Push(r: Reserve, image: RenderedImage): Reserve {
    var buffer := MakeRoom(r.buffer) + [image];
    Reserve(buffer, if |buffer| == 1 then Bump(r.generation) else r.generation)
  }

  function Set(r: Reserve, image: RenderedImage): Reserve {
    Reserve([image], Bump(r.generation))
  }

  function Advance(r: Reserve): Reserve {
    if |r.buffer| < 2 then r else Reserve(r.buffer[1..], Bump(r.generation))
  }

  function Clear(r: Reserve): Reserve {
    Reserve([], Bump(r.generation))
  }

  datatype Change =
    | ShowPhoto(image: RenderedImage)
    | QueuePhoto(image: RenderedImage)
    | SetPhoto(image: RenderedImage)
    | NextPhoto
    | ClearPhotos

  function Changed(r: Reserve, c: Change): Reserve {
    match c
    case ShowPhoto(image) => Show(r, image)
    case QueuePhoto(image) => Push(r, image)
    case SetPhoto(image) => Set(r, image)
    case NextPhoto => Advance(r)
    case ClearPhotos => Clear(r)
  }

  /** Whether a change counts as a new generation. */
  predicate Bumps(r: Reserve, c: Change) {
    match c
    case ShowPhoto(image) => !AlreadyShowing(r.buffer, image)
    case QueuePhoto(_) => r.buffer == []
    case SetPhoto(_) => true
    case NextPhoto => |r.buffer| >= 2
    case ClearPhotos => true
  }

  /** No change outgrows the buffer, blanks the screen without clearing it, or
      touches the front photo without counting a new generation. */
  lemma ChangesAreCounted(r: Reserve, c: Change)
    requires |r.buffer| <= BUFFER_CAPACITY
    ensures |Changed(r, c).buffer| <= BUFFER_CAPACITY
    ensures Changed(r, c).generation == if Bumps(r, c) then Bump(r.generation) else r.generation
    ensures !Bumps(r, c) ==> (r.buffer == [] <==> Changed(r, c).buffer == [])
    ensures !Bumps(r, c) && r.buffer != [] ==> Changed(r, c).buffer[0] == r.buffer[0]
    ensures r.buffer != [] && !c.ClearPhotos? ==> Changed(r, c).buffer != []
  {
  }

  class RenderedImageState {
    var buffer: seq<RenderedImage>
    var generation: nat

    function State(): Reserve
      reads this
    {
      Reserve(buffer, generation)
    }

    constructor ()
      ensures State() == Reserve([], 0)
    {
      buffer, generation := [], 0;
    }

    method ShowRenderedImage(image: RenderedImage)
      modifies this
      ensures State() == Show(old(State()), image)
      // A photo without an id, or with another id than the one in front, goes in front.
      ensures image.id == None || old(buffer) == [] || old(buffer)[0].id != image.id ==>
        && buffer == [image] + (if |old(buffer)| < 3 then old(buffer) else old(buffer)[..|old(buffer)| - 1])
        && generation == (old(generation) + 1) % 0x1_0000_0000_0000_0000
      ensures image.id != None && old(buffer) != [] && old(buffer)[0].id == image.id ==> State() == old(State())
    {
      if image.id.Some? && |buffer| > 0 && buffer[0].id.Some? && image.id.value == buffer[0].id.value {
        return;
      }
      if |buffer| >= BUFFER_CAPACITY {
        buffer := buffer[..|buffer| - 1];
      }
      buffer := [image] + buffer;
      generation := Bump(generation);
    }

    method PushRenderedImage(image: RenderedImage)
      modifies this
      ensures State() == Push(old(State()), image)
    {
      if |buffer| >= BUFFER_CAPACITY {
        buffer := buffer[..|buffer| - 1];
      }
      buffer := buffer + [image];
      if |buffer| == 1 {
        generation := Bump(generation);
      }
    }

    method SetRenderedImage(image: RenderedImage)
      modifies this
      ensures State() == Set(old(State()), image)
    {
      buffer := [];
      buffer := buffer + [image];
      generation := Bump(generation);
    }

    method AdvanceRenderedImage() returns (moved: bool)
      modifies this
      ensures State() == Advance(old(State()))
      ensures moved <==> |old(buffer)| >= 2
    {
      if |buffer| < 2 {
        return false;
      }
      buffer := buffer[1..];
      generation := Bump(generation);
      return true;
    }

    method ClearRenderedImage()
      modifies this
      ensures State() == Clear(old(State()))
    {
      buffer := [];
      generation := Bump(generation);
    }
  }
}
