/**
 * A pending attachment: a placeholder message part that loads its media in
 * the background and reports the outcome to the draft it belongs to.
 *
 * The load task itself is left out; its two outcomes, completion with a part
 * or without one and cancellation on timeout, are the callback methods. The
 * draft's answer to "is it still bound to this binding id" is a parameter,
 * and the calls made on the draft are returned in order.
 */
module PendingAttachment {
  import opened JavaLang

  const STATE_PENDING := 0
  const STATE_LOADING := 1
  const STATE_LOADED := 2
  const STATE_FAILED := 3

  /** MessagePartData's marker for an unknown width or height. */
  const UNSPECIFIED_SIZE := -1

  /** The loaded part the task hands back. */
  datatype MessagePart = MessagePart(text: Option<string>, contentType: string, contentUri: string, width: int, height: int)

  /** The calls a callback makes on the draft. */
  datatype DraftCall =
    | UpdatePendingAttachment(part: MessagePart)
    | OnPendingAttachmentLoadFailed
    | RemovePendingAttachment

  /** An Android Parcel of ints: written at the end, read from a cursor that only moves forward. */
  class Parcel {
    var data: seq<int>
    var position: nat

    constructor ()
      ensures data == [] && position == 0
    {
      data := [];
      position := 0;
    }

    method WriteInt(v: int)
      modifies this`data
      ensures data == old(data) + [v]
    {
      data := data + [v];
    }

    /** readInt: the next value, or 0 once the data is exhausted. */
    method ReadInt() returns (v: int)
      modifies this`position
      ensures old(position) < |data| ==> v == data[old(position)] && position == old(position) + 1
      ensures old(position) >= |data| ==> v == 0 && position == old(position)
    {
      if position < |data| {
        v := data[position];
        position := position + 1;
      } else {
        v := 0;
      }
    }
  }

  class PendingAttachmentData {
    const caption: Option<string>
    const contentType: string
    const sourceUri: string
    const width: int
    const height: int
    const onlySingleAttachment: bool
    var currentState: int

    /** The state is one of the four STATE_* constants. */
    predicate Valid()
      reads this`currentState
    {
      STATE_PENDING <= currentState <= STATE_FAILED
    }

    /** A new pending attachment has not started loading. */
    constructor (caption: Option<string>, contentType: string, sourceUri: string, width: int, height: int,
                 onlySingleAttachment: bool)
      ensures Valid() && currentState == STATE_PENDING
      ensures this.caption == caption && this.contentType == contentType && this.sourceUri == sourceUri
      ensures this.width == width && this.height == height && this.onlySingleAttachment == onlySingleAttachment
    {
      this.caption := caption;
      this.contentType := contentType;
      this.sourceUri := sourceUri;
      this.width := width;
      this.height := height;
      this.onlySingleAttachment := onlySingleAttachment;
      currentState := STATE_PENDING;
    }

    /**
     * The parcel constructor: the state is the next int of the parcel, as it
     * was written, with no check that it is one of the four states.
     */
    constructor FromParcel(caption: Option<string>, contentType: string, sourceUri: string, width: int, height: int,
                           onlySingleAttachment: bool, inParcel: Parcel)
      modifies inParcel`position
      ensures old(inParcel.position) < |inParcel.data| ==>
                currentState == inParcel.data[old(inParcel.position)] && inParcel.position == old(inParcel.position) + 1
      ensures old(inParcel.position) >= |inParcel.data| ==> currentState == 0
      ensures this.caption == caption && this.contentType == contentType && this.sourceUri == sourceUri
      ensures this.width == width && this.height == height && this.onlySingleAttachment == onlySingleAttachment
    {
      this.caption := caption;
      this.contentType := contentType;
      this.sourceUri := sourceUri;
      this.width := width;
      this.height := height;
      this.onlySingleAttachment := onlySingleAttachment;
      var state := inParcel.ReadInt();
      currentState := state;
    }

    /** writeToParcel: appends the state after what the superclass writes. */
    method WriteToParcel(out: Parcel)
      modifies out`data
      ensures out.data == old(out.data) + [currentState]
    {
      out.WriteInt(currentState);
    }

    function GetCurrentState(): (s: int)
      reads this`currentState
      ensures Valid() ==> STATE_PENDING <= s <= STATE_FAILED
    {
      currentState
    }

    /**
     * loadAttachmentForDraft: starts the load only from PENDING, moving to
     * LOADING; in any other state it does nothing. `started` says whether the
     * background task was launched.
     */
    method LoadAttachmentForDraft() returns (started: bool)
      modifies this`currentState
      ensures old(Valid()) ==> Valid()
      ensures started <==> old(currentState) == STATE_PENDING
      ensures currentState == if started then STATE_LOADING else old(currentState)
      ensures currentState == NextState(old(currentState), Load)
    {
      if currentState != STATE_PENDING {
        return false;
      }
      currentState := STATE_LOADING;
      return true;
    }

    /**
     * onCancelled (the load timed out): the load failed; the draft drops the
     * attachment only if it is still bound to the binding id.
     */
    method OnCancelled(bound: bool) returns (calls: seq<DraftCall>)
      modifies this`currentState
      ensures Valid() && currentState == STATE_FAILED && currentState == NextState(old(currentState), Cancelled)
      ensures calls == if bound then [RemovePendingAttachment] else []
    {
      currentState := STATE_FAILED;
      calls := [];
      if bound {
        calls := calls + [RemovePendingAttachment];
      }
    }

    /**
     * onPostExecute: with a part the load succeeded and the draft is always
     * given the part; without one the load failed, and a still-bound draft
     * is told so and drops the attachment.
     */
    method OnPostExecute(attachment: Option<MessagePart>, bound: bool) returns (calls: seq<DraftCall>)
      modifies this`currentState
      ensures Valid()
      ensures currentState == STATE_LOADED <==> attachment.Some?
      ensures currentState == STATE_FAILED <==> attachment.None?
      ensures currentState == NextState(old(currentState), Completed(attachment.Some?))
      ensures attachment.Some? ==> calls == [UpdatePendingAttachment(attachment.value)]
      ensures attachment.None? ==> calls == if bound then [OnPendingAttachmentLoadFailed, RemovePendingAttachment] else []
    {
      calls := [];
      if attachment.Some? {
        currentState := STATE_LOADED;
        calls := calls + [UpdatePendingAttachment(attachment.value)];
      } else {
        currentState := STATE_FAILED;
        if bound {
          calls := calls + [OnPendingAttachmentLoadFailed, RemovePendingAttachment];
        }
      }
    }
  }

  /**
   * The createPendingAttachmentData factories: the content type must be a
   * media type; the short form has no caption and unspecified sizes, and the
   * attachment is not the only one allowed unless said so.
   */
  method CreatePendingAttachmentData(caption: Option<string>, contentType: string, sourceUri: string,
                                     width: int, height: int, onlySingleAttachment: bool,
                                     isMediaType: string -> bool) returns (p: PendingAttachmentData)
    requires isMediaType(contentType)
    ensures fresh(p) && p.Valid() && p.currentState == STATE_PENDING
    ensures p.caption == caption && p.contentType == contentType && p.sourceUri == sourceUri
    ensures p.width == width && p.height == height && p.onlySingleAttachment == onlySingleAttachment
  {
    p := new PendingAttachmentData(caption, contentType, sourceUri, width, height, onlySingleAttachment);
  }

  method CreatePendingAttachmentDataForUri(contentType: string, sourceUri: string, isMediaType: string -> bool)
    returns (p: PendingAttachmentData)
    requires isMediaType(contentType)
    ensures fresh(p) && p.Valid() && p.currentState == STATE_PENDING
    ensures p.caption.None? && p.contentType == contentType && p.sourceUri == sourceUri
    ensures p.width == UNSPECIFIED_SIZE && p.height == UNSPECIFIED_SIZE && !p.onlySingleAttachment
  {
    p := CreatePendingAttachmentData(None, contentType, sourceUri, UNSPECIFIED_SIZE, UNSPECIFIED_SIZE, false, isMediaType);
  }

  /**
   * Writing a pending attachment into a fresh parcel and creating one from
   * that parcel gives back the same state.
   */
  method ParcelRoundTrip(a: PendingAttachmentData) returns (b: PendingAttachmentData)
    ensures fresh(b) && b.currentState == a.currentState
    ensures b.caption == a.caption && b.contentType == a.contentType && b.sourceUri == a.sourceUri
    ensures b.width == a.width && b.height == a.height && b.onlySingleAttachment == a.onlySingleAttachment
  {
    var parcel := new Parcel();
    a.WriteToParcel(parcel);
    b := new PendingAttachmentData.FromParcel(a.caption, a.contentType, a.sourceUri, a.width, a.height,
                                              a.onlySingleAttachment, parcel);
  }

  /** The events the state machine reacts to. */
  datatype Event = Load | Completed(loaded: bool) | Cancelled

  /** The state after one event, as the methods above leave it. */
  function NextState(state: int, e: Event): int {
    match e
    case Load => if state == STATE_PENDING then STATE_LOADING else state
    case Completed(loaded) => if loaded then STATE_LOADED else STATE_FAILED
    case Cancelled => STATE_FAILED
  }

  /** The state after a run of events. */
  function Run(state: int, events: seq<Event>): int
    decreases |events|
  {
    if events == [] then state else Run(NextState(state, events[0]), events[1..])
  }

  /**
   * Whatever happens, the state stays one of the four; a load is started at
   * most once; once the task has reported, further load requests change
   * nothing.
   */
  lemma {:induction false} RunProperties(state: int, events: seq<Event>)
    requires STATE_PENDING <= state <= STATE_FAILED
    ensures STATE_PENDING <= Run(state, events) <= STATE_FAILED
    ensures state != STATE_PENDING ==> Run(state, events) != STATE_PENDING
    ensures (state == STATE_LOADED || state == STATE_FAILED) && (forall i :: 0 <= i < |events| ==> events[i] == Load) ==>
              Run(state, events) == state
    decreases |events|
  {
    if events != [] {
      RunProperties(NextState(state, events[0]), events[1..]);
    }
  }
}
