/**
  The card that shows one catalogue entry. Its only behaviour is the image
  source: it starts at the image it was given and switches, on a load error,
  to the application's local fallback asset.
 */
module PokemonCard {

  /** The local asset shown when the remote sprite fails to load. */
  const FallbackSrc: string := "/fallback.png"

  /** One mounted card: its props and the image source it currently shows. */
  datatype Card = Card(name: string, image: string, imgSrc: string)

  /** What the browser reports about the `<img>` element. */
  datatype ImageEvent = Loaded | LoadFailed

  /** A freshly mounted card shows the image it was given. */
  function Mount(name: string, image: string): (c: Card)
    ensures c.name == name && c.image == image
    ensures c.imgSrc == image
  {
    Card(name, image, image)
  }

  /** `handleError`: switch to the fallback asset and keep the props. */
  function HandleError(c: Card): (c': Card)
    ensures c'.imgSrc == FallbackSrc
    ensures c'.name == c.name && c'.image == c.image
  {
    c.(imgSrc := FallbackSrc)
  }

  /** The card's reaction to one image event: only a failure has a handler. */
  function OnImage(c: Card, ev: ImageEvent): Card
  {
    match ev
    case LoadFailed => HandleError(c)
    case Loaded => c
  }

  /** The state after a sequence of image events, oldest first. */
  function Replay(c: Card, evs: seq<ImageEvent>): Card
    decreases |evs|
  {
    if |evs| == 0 then c else Replay(OnImage(c, evs[0]), evs[1..])
  }

  /** The `alt` text of the card's image. */
  function AltText(c: Card): string
  {
    c.name
  }

  /** The source is always the given image or the fallback asset. */
  ghost predicate Valid(c: Card)
  {
    c.imgSrc == c.image || c.imgSrc == FallbackSrc
  }

  /** Handling an error a second time changes nothing. */
  lemma HandleErrorIdempotent(c: Card)
    ensures HandleError(HandleError(c)) == HandleError(c)
  {
  }

  /** No event sequence changes the props, and none leads to a source other than the image or the fallback. */
  lemma {:induction false} ReplayKeepsValid(c: Card, evs: seq<ImageEvent>)
    requires Valid(c)
    ensures Valid(Replay(c, evs))
    ensures Replay(c, evs).name == c.name && Replay(c, evs).image == c.image
    ensures AltText(Replay(c, evs)) == AltText(c)
    decreases |evs|
  {
    if |evs| > 0 {
      ReplayKeepsValid(OnImage(c, evs[0]), evs[1..]);
    }
  }

  /** Once the fallback is showing, no later event brings the original image back. */
  lemma {:induction false} FallbackIsFinal(c: Card, evs: seq<ImageEvent>)
    requires c.imgSrc == FallbackSrc
    ensures Replay(c, evs).imgSrc == FallbackSrc
    decreases |evs|
  {
    if |evs| > 0 {
      FallbackIsFinal(OnImage(c, evs[0]), evs[1..]);
    }
  }

  /**
    A card not yet showing the fallback shows it after a run of events exactly
    when one of them was a failure; with no failure the card is unchanged.
   */
  lemma {:induction false} ReplayShowsFallbackIffFailed(c: Card, evs: seq<ImageEvent>)
    requires c.imgSrc != FallbackSrc
    ensures Replay(c, evs).imgSrc == FallbackSrc <==> LoadFailed in evs
    ensures LoadFailed !in evs ==> Replay(c, evs) == c
    decreases |evs|
  {
    if |evs| > 0 {
      if evs[0] == LoadFailed {
        FallbackIsFinal(HandleError(c), evs[1..]);
      } else {
        ReplayShowsFallbackIffFailed(c, evs[1..]);
        assert LoadFailed in evs <==> LoadFailed in evs[1..];
      }
    }
  }

  /** A mounted card whose first load fails shows the fallback from then on, whatever follows. */
  lemma FirstFailureIsFinal(name: string, image: string, later: seq<ImageEvent>)
    ensures Replay(Mount(name, image), [LoadFailed] + later).imgSrc == FallbackSrc
    ensures AltText(Replay(Mount(name, image), [LoadFailed] + later)) == name
  {
    var evs := [LoadFailed] + later;
    assert evs[1..] == later;
    FallbackIsFinal(HandleError(Mount(name, image)), later);
    ReplayKeepsValid(HandleError(Mount(name, image)), later);
  }
}
