/** Multi-frame messages as the library sees them through czmq: frames are octet
    strings, and every frame is written and read as a C string. */
module Messages {

  datatype Option<+T> = None | Some(value: T)

  type Payload = seq<string>

  /** What a C string function sees of `s`: the octets before the first NUL. */
  function CStr(s: string): (r: string)
    ensures NulFree(r) && r <= s
    ensures |r| < |s| ==> s[|r|] == '\0'
  {
    if s == [] || s[0] == '\0' then [] else [s[0]] + CStr(s[1..])
  }

  predicate NulFree(s: string) {
    forall i :: 0 <= i < |s| ==> s[i] != '\0'
  }

  /** `CStr` is the only prefix of `s` that is NUL-free and followed by a NUL or by nothing. */
  lemma {:induction false} CStrUnique(s: string, r: string)
    requires r <= s && NulFree(r)
    requires |r| < |s| ==> s[|r|] == '\0'
    ensures r == CStr(s)
  {
    if r != [] {
      CStrUnique(s[1..], r[1..]);
    }
  }

  lemma CStrOfNulFree(s: string)
    requires NulFree(s)
    ensures CStr(s) == s
  {
    CStrUnique(s, s);
  }

  /** A payload after one trip through C strings. */
  function CStrs(p: Payload): (r: Payload)
    ensures |r| == |p|
    ensures forall i :: 0 <= i < |p| ==> r[i] == CStr(p[i])
  {
    seq(|p|, i requires 0 <= i < |p| => CStr(p[i]))
  }

  predicate AllNulFree(p: Payload) {
    forall i :: 0 <= i < |p| ==> NulFree(p[i])
  }

  /** A second trip changes nothing. */
  lemma CStrsStable(p: Payload)
    ensures AllNulFree(CStrs(p)) && CStrs(CStrs(p)) == CStrs(p)
    ensures AllNulFree(p) ==> CStrs(p) == p
  {
    forall i | 0 <= i < |p|
      ensures CStr(CStr(p[i])) == CStr(p[i])
      ensures NulFree(p[i]) ==> CStr(p[i]) == p[i]
    {
      CStrOfNulFree(CStr(p[i]));
      if NulFree(p[i]) { CStrOfNulFree(p[i]); }
    }
  }

  /** A czmq message: frames are pushed and popped in place. */
  class Zmsg {
    var frames: seq<string>

    constructor (frames: seq<string> := [])
      ensures this.frames == frames
    {
      this.frames := frames;
    }

    function Size(): nat
      reads this
    {
      |frames|
    }

    method AddStr(s: string)
      modifies this
      ensures frames == old(frames) + [CStr(s)]
    {
      frames := frames + [CStr(s)];
    }

    method PushStr(s: string)
      modifies this
      ensures frames == [CStr(s)] + old(frames)
    {
      frames := [CStr(s)] + frames;
    }

    /** Removes the first frame and gives it as a C string; nothing from an empty message. */
    method PopStr() returns (s: Option<string>)
      modifies this
      ensures old(frames) == [] ==> s == None && frames == []
      ensures old(frames) != [] ==> s == Some(CStr(old(frames)[0])) && frames == old(frames)[1..]
    {
      if frames == [] {
        s := None;
      } else {
        s := Some(CStr(frames[0]));
        frames := frames[1..];
      }
    }

    /** The counting loop by which listener, server and client unpack the frames they have not yet
        popped: it pops as many frames as are left and collects them in order. */
    method PopPayload() returns (payload: Payload)
      modifies this
      ensures frames == [] && payload == CStrs(old(frames))
    {
      payload := [];
      var numberOfFrame := Size();
      for index := 0 to numberOfFrame
        invariant frames == old(frames)[index..]
        invariant payload == CStrs(old(frames))[..index]
      {
        var frame := PopStr();
        payload := payload + [frame.value];
      }
    }

    /** The loop that appends a payload frame by frame. */
    method AddPayload(payload: Payload)
      modifies this
      ensures frames == old(frames) + CStrs(payload)
    {
      for index := 0 to |payload|
        invariant frames == old(frames) + CStrs(payload)[..index]
      {
        AddStr(payload[index]);
      }
    }
  }
}
