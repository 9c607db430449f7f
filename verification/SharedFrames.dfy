/**
 Frames handed to the viewport process as shared surfaces.  Each frame is backed by a clone
 that has to be released once: by the client, by a purge, or by the call that made it.
 Surfaces are numbers, 0 being the null pointer.
 */
module SharedFrames {
  import opened Basics
  import opened TtlStore

  type Surface = nat

  const NO_SURFACE: Surface := 0

  const CLONE_TTL: nat := 30 * TICKS_PER_SECOND

  /**
   Where in a `grabSharedFrame` an exception is thrown.  Every exception is caught around the
   whole body, which then answers INTERNAL and does nothing else.  `Tracking(reached)` is an
   exception under the lock: the purge dealt with the keys in `reached` and nothing was recorded.
   */
  datatype ThrowPoint =
    | Nowhere
    | Grabbing
    | Cloning
    | ReturningResult
    | OpeningProcess
    | DuplicatingHandle
    | TakingNumber
    | Tracking(reached: set<nat>)
    | Answering

  /**
   What the SDK and the operating system answer during one `grabSharedFrame`.  `images` has
   the shared surface of each image of the render result, `clone` is what cloning it gives.
   */
  datatype Outside = Outside(
    clientPid: nat,
    grabbed: bool,
    images: seq<Surface>,
    clone: Surface,
    openOk: bool,
    duplicateOk: bool,
    purgeNow: int,
    created: int,
    throws: ThrowPoint
  ) {
    /** The SDK has produced images, so there is a render result to give back. */
    predicate YieldsImages() {
      clientPid != 0 && throws != Grabbing && grabbed && images != []
    }

    predicate HasSurface() {
      YieldsImages() && AnySurface(images)
    }

    /** The SDK has made a clone. */
    predicate MakesClone() {
      HasSurface() && throws != Cloning && clone != NO_SURFACE
    }

    /** The render result is given back: unless an exception comes first. */
    predicate ReturnsResult() {
      YieldsImages() && throws != Cloning && !(MakesClone() && throws == ReturningResult)
    }

    predicate AsksToOpen() {
      MakesClone() && throws != ReturningResult && throws != OpeningProcess
    }

    predicate AsksToDuplicate() {
      AsksToOpen() && openOk && throws != DuplicatingHandle
    }

    predicate TakesNumber() {
      AsksToDuplicate() && duplicateOk && throws != TakingNumber
    }

    predicate Tracks() {
      TakesNumber() && !throws.Tracking?
    }

    predicate Succeeds() {
      Tracks() && throws != Answering
    }

    /** The call itself releases the clone it made. */
    predicate ReleasesClone() {
      (AsksToOpen() && !openOk) || (AsksToDuplicate() && !duplicateOk)
    }

    /** An exception was thrown while the call owned the clone: nobody releases it. */
    predicate LeaksClone() {
      && MakesClone()
      && (|| throws == ReturningResult
          || throws == OpeningProcess
          || (openOk && throws == DuplicatingHandle)
          || (openOk && duplicateOk && (throws == TakingNumber || throws.Tracking?)))
    }

    /** The call answers OK: with a frame, or because there is no frame to be had. */
    predicate AnswersOk() {
      || clientPid == 0
      || (throws != Grabbing && !YieldsImages())
      || (ReturnsResult() && !HasSurface())
      || Succeeds()
    }

    /** What the call does to the table of clones when its number is `id`. */
    function TableOp(id: nat): Option<Op<Surface>> {
      if Tracks() then Some(Put(id, clone, purgeNow, created))
      else if TakesNumber() then Some(Cut(purgeNow, throws.reached))
      else None
    }
  }

  predicate AnySurface(images: seq<Surface>) {
    exists i :: 0 <= i < |images| && images[i] != NO_SURFACE
  }

  /** `i` is the place of the first image with a shared surface. */
  ghost predicate IsFirstSurface(images: seq<Surface>, i: nat) {
    && i < |images| && images[i] != NO_SURFACE
    && forall j :: 0 <= j < i ==> images[j] == NO_SURFACE
  }

  lemma FirstSurfaceIsOne(images: seq<Surface>, i: nat, j: nat)
    requires IsFirstSurface(images, i) && j < |images| && images[j] != NO_SURFACE
    ensures i <= j && (IsFirstSurface(images, j) ==> i == j)
  {
  }

  /** The image and the frame number that a successful call answers. */
  datatype Frame = Frame(image: nat, frameId: nat)

  /**
   What a grab does when the frame counter stands at `id`: to the counter, to the table of
   clones, and to the number of times each surface has been released.
   */
  ghost predicate Effect(out: Outside, id: nat, clones: Store<Surface>, released: Surface -> nat,
                         id': nat, clones': Store<Surface>, released': Surface -> nat) {
    var op := out.TableOp(id);
    && id' == (if out.TakesNumber() then (id + 1) % U64 else id)
    && clones' == (if op.Some? then Apply(clones, op.value, CLONE_TTL) else clones)
    && forall v :: released'(v)
         == released(v)
            + (if op.Some? then RemovedBy(clones, op.value, CLONE_TTL, v) else 0)
            + (if out.ReleasesClone() && v == out.clone then 1 else 0)
  }

  /** What a grab answers, and how many render results it gives back. */
  ghost predicate Answers(out: Outside, id: nat, status: Status, frame: Option<Frame>, results: int) {
    && status == (if out.AnswersOk() then Ok else Internal)
    && (frame.Some? <==> out.Succeeds())
    && (frame.Some? ==> frame.value.frameId == id && IsFirstSurface(out.images, frame.value.image))
    && results == if out.ReturnsResult() then 1 else 0
  }

  /**
   The answer by the SDK's and the system's answers alone.  Without an exception it is OK if
   there is no client, no result, no image with a surface, or else the clone is made, the
   process opened and the handle duplicated; only then there is a frame.  The result is given
   back if there are images, and the clone is recorded or released, whichever it is.
   */
  lemma AnswerByTheAnswers(out: Outside)
    requires out.throws == Nowhere
    ensures var images, surfaces := out.clientPid != 0 && out.grabbed && out.images != [],
                                    exists i :: 0 <= i < |out.images| && out.images[i] != 0;
      var shared := out.clone != 0 && out.openOk && out.duplicateOk;
      && (out.AnswersOk() <==> !images || !surfaces || shared)
      && (out.Succeeds() <==> images && surfaces && shared)
      && (out.ReturnsResult() <==> images)
      && (out.Tracks() <==> out.Succeeds()) && (out.TakesNumber() <==> out.Succeeds())
      && (out.ReleasesClone() <==> images && surfaces && out.clone != 0 && !shared)
      && !out.LeaksClone()
  {
  }

  /** With an exception there is no frame, and what is released or recorded was so before it. */
  lemma AnswerAfterThrow(out: Outside)
    requires out.throws != Nowhere
    ensures !out.Succeeds()
    ensures out.AnswersOk() ==> out.(throws := Nowhere).AnswersOk() && !out.(throws := Nowhere).Succeeds()
    ensures out.ReturnsResult() ==> out.(throws := Nowhere).ReturnsResult()
    ensures out.ReleasesClone() ==> out.(throws := Nowhere).ReleasesClone()
    ensures out.Tracks() ==> out.(throws := Nowhere).Tracks() && out.throws == Answering
  {
  }

  /** How often each surface occurs in a list of releases. */
  ghost function CountOf(released: seq<Surface>): Surface -> nat {
    v => multiset(released)[v]
  }

  class SharedFrameService {
    var clones: Store<Surface>
    var nextFrameId: nat
    /** Every surface released so far, and how many render results were given back. */
    var released: seq<Surface>
    var resultReleases: nat

    constructor ()
      ensures clones == map[] && nextFrameId == 1 && released == [] && resultReleases == 0
    {
      clones, nextFrameId, released, resultReleases := map[], 1, [], 0;
    }

    /**
     Releases and erases every clone past its time, in whatever order the table yields them.
     If an exception ends the loop early, `reached` are the keys it had got to.
     */
    method PurgeStaleClones(now: int, reached: set<nat>)
      modifies this`clones, this`released
      ensures clones == old(clones) - Expired(old(clones), now, CLONE_TTL, reached)
      ensures old(clones).Keys <= reached ==> clones == Keep(old(clones), now, CLONE_TTL)
      ensures old(released) <= released
      ensures forall v :: multiset(released)[v] == multiset(old(released))[v] + Copies(old(clones) - clones.Keys, v)
    {
      var ahead := clones.Keys * reached;
      CopiesOfNothing<Surface>();
      assert old(clones) - clones.Keys == map[];
      while ahead != {}
        invariant ahead <= clones.Keys * reached && clones.Keys <= old(clones).Keys
        invariant forall k :: k in clones ==> clones[k] == old(clones)[k]
        invariant forall k :: k in old(clones) && k !in ahead ==>
                    (k in clones <==> k !in Expired(old(clones), now, CLONE_TTL, reached))
        invariant old(released) <= released
        invariant forall v :: multiset(released)[v] == multiset(old(released))[v] + Copies(old(clones) - clones.Keys, v)
        decreases ahead
      {
        var k :| k in ahead;
        if now - clones[k].created > CLONE_TTL {
          Taken(old(clones), clones, k);
          released := released + [clones[k].value];
          clones := clones - {k};
        }
        ahead := ahead - {k};
      }
    }

    method GrabSharedFrame(out: Outside) returns (status: Status, frame: Option<Frame>)
      modifies this
      ensures Answers(out, old(nextFrameId), status, frame, resultReleases - old(resultReleases))
      ensures Effect(out, old(nextFrameId), old(clones), CountOf(old(released)), nextFrameId, clones, CountOf(released))
    {
      status, frame := Ok, None;
      if out.clientPid == 0 {
        return;
      }
      if out.throws == Grabbing {
        return Internal, None;
      }
      if !out.grabbed || |out.images| == 0 {
        return;
      }
      var image := 0;
      while image < |out.images| && out.images[image] == NO_SURFACE
        invariant 0 <= image <= |out.images|
        invariant forall j :: 0 <= j < image ==> out.images[j] == NO_SURFACE
      {
        image := image + 1;
      }
      if out.throws == Cloning {
        return Internal, None;
      }
      if image == |out.images| {
        resultReleases := resultReleases + 1;
        return;
      }
      assert out.HasSurface();
      if out.clone == NO_SURFACE {
        resultReleases := resultReleases + 1;
        return Internal, None;
      }
      if out.throws == ReturningResult {
        return Internal, None;
      }
      resultReleases := resultReleases + 1;
      status, frame := ShareClone(out, image);
    }

    /** The part of a grab that has the clone and no longer the render result. */
    method ShareClone(out: Outside, image: nat) returns (status: Status, frame: Option<Frame>)
      requires out.MakesClone() && out.throws != ReturningResult
      modifies this`clones, this`released, this`nextFrameId
      ensures frame == if out.Succeeds() then Some(Frame(image, old(nextFrameId))) else None
      ensures status == if out.Succeeds() then Ok else Internal
      ensures Effect(out, old(nextFrameId), old(clones), CountOf(old(released)), nextFrameId, clones, CountOf(released))
    {
      status, frame := Internal, None;
      if out.throws == OpeningProcess {
        return;
      }
      if !out.openOk {
        released := released + [out.clone];
        return;
      }
      if out.throws == DuplicatingHandle {
        return;
      }
      if !out.duplicateOk {
        released := released + [out.clone];
        return;
      }
      if out.throws == TakingNumber {
        return;
      }
      status, frame := NumberAndTrack(out, image);
    }

    /** The last part of a grab, from the atomic increment on. */
    method NumberAndTrack(out: Outside, image: nat) returns (status: Status, frame: Option<Frame>)
      modifies this`clones, this`released, this`nextFrameId
      ensures nextFrameId == (old(nextFrameId) + 1) % U64
      ensures frame.Some? <==> !out.throws.Tracking? && out.throws != Answering
      ensures frame.Some? ==> frame.value == Frame(image, old(nextFrameId))
      ensures status == if frame.Some? then Ok else Internal
      ensures var op := if out.throws.Tracking? then Cut(out.purgeNow, out.throws.reached)
                        else Put(old(nextFrameId), out.clone, out.purgeNow, out.created);
        && clones == Apply(old(clones), op, CLONE_TTL)
        && forall v :: multiset(released)[v] == multiset(old(released))[v] + RemovedBy(old(clones), op, CLONE_TTL, v)
    {
      var frameId := nextFrameId;
      nextFrameId := (nextFrameId + 1) % U64;
      if out.throws.Tracking? {
        PurgeStaleClones(out.purgeNow, out.throws.reached);
        assert old(clones) - clones.Keys
            == old(clones) - (old(clones).Keys - Expired(old(clones), out.purgeNow, CLONE_TTL, out.throws.reached));
        return Internal, None;
      }
      PurgeStaleClones(out.purgeNow, clones.Keys);
      clones := clones[frameId := Entry(out.clone, out.created)];
      if out.throws == Answering {
        return Internal, None;
      }
      status, frame := Ok, Some(Frame(image, frameId));
    }

    /** A frame that is not tracked, or no longer, is left alone: a second release does nothing. */
    method ReleaseSharedFrame(frameId: nat)
      modifies this`clones, this`released
      ensures clones == Apply(old(clones), Del(frameId), CLONE_TTL)
      ensures released == old(released) + if frameId in old(clones) then [old(clones)[frameId].value] else []
    {
      if frameId in clones {
        released := released + [clones[frameId].value];
        clones := clones - {frameId};
      }
    }
  }

  /** Taking one more entry out of a table adds one copy to what was taken. */
  lemma Taken<V>(whole: Store<V>, left: Store<V>, k: nat)
    requires k in left && left.Keys <= whole.Keys && whole[k] == left[k]
    ensures forall v :: Copies(whole - (left - {k}).Keys, v)
                     == Copies(whole - left.Keys, v) + if left[k].value == v then 1 else 0
  {
    var gone := whole - left.Keys;
    assert whole - (left - {k}).Keys == gone[k := left[k]];
    forall v
      ensures Copies(gone[k := left[k]], v) == Copies(gone, v) + if left[k].value == v then 1 else 0
    {
      CopiesUpdated(gone, k, left[k], v);
    }
  }

  lemma CopiesOfNothing<V>()
    ensures forall v: V :: Copies(map[], v) == 0
  {
    forall v: V
      ensures Copies(map[], v) == 0
    {
      assert Holders<V>(map[], v) == {};
    }
  }
}
