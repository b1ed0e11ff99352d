/** The ciphertext envelope: what the client posts, what each receive path hands on, and the bytes that
    `Decrypt` tries first. */
module Envelopes {
  import opened Ascii
  import opened Base64

  /** PostPaste and PostChatMessageWithOptions encode whatever is not already base64. */
  function Posted(ciphertext: bytes): bytes {
    if ValidBase64(ciphertext) then ciphertext else Encode(ciphertext)
  }

  datatype Path = Paste | Stream | Inbox

  /** GetPaste and ListenStream decode on receipt; FetchInbox does not. */
  function Received(path: Path, stored: bytes): bytes {
    if path != Inbox && ValidBase64(stored) then Decode(stored).value else stored
  }

  /** What Decrypt gives to age first; nothing for an empty ciphertext. */
  function FirstAttempt(ciphertext: bytes): Option<bytes> {
    if ciphertext == [] then None
    else if ValidBase64(ciphertext) && Decode(ciphertext).value != [] then Decode(ciphertext)
    else Some(ciphertext)
  }

  /** Nothing is tried on nothing; anything else is tried, decoded if that leaves something. */
  lemma TriedUnlessEmpty(c: bytes)
    ensures FirstAttempt(c).None? <==> c == []
    ensures c != [] ==> FirstAttempt(c) == if Decode(c).None? || Decode(c) == Some([]) then Some(c) else Decode(c)
  {
  }

  /** Whatever is posted passes the relay's own base64 check, and is non-empty when the ciphertext is. */
  lemma RelayAccepts(c: bytes)
    ensures ValidBase64(Posted(c))
    ensures c != [] <==> Posted(c) != []
  {
    RoundTrip(c);
  }

  /** The paths that decode on receipt give age the original bytes exactly when those bytes were not
      base64 to begin with. */
  lemma DecodingPathAgrees(c: bytes, path: Path)
    requires c != [] && path != Inbox
    ensures FirstAttempt(Received(path, Posted(c))) == Some(c) <==> !ValidBase64(c)
  {
    RoundTrip(c);
  }

  /** The inbox path, which leaves the decoding to Decrypt, also tolerates text that decodes to nothing. */
  lemma InboxPathAgrees(c: bytes)
    requires c != []
    ensures FirstAttempt(Received(Inbox, Posted(c))) == Some(c) <==> !ValidBase64(c) || Decode(c) == Some([])
  {
    RoundTrip(c);
  }

  /** A binary age file starts with a header that holds '-' (45), so all three paths agree on it. */
  lemma AgeFileSurvives(c: bytes, path: Path)
    requires 45 in c
    ensures FirstAttempt(Received(path, Posted(c))) == Some(c)
  {
    var i :| 0 <= i < |c| && c[i] == 45;
    ForeignSymbol(c, i);
    RoundTrip(c);
  }
}
