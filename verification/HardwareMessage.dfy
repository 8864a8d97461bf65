/**
 `send_hardware_message` of src/app.cpp: a text of at most 60 bytes, cut between UTF-8 characters.
 */
module HardwareMessage {
  import opened ServerModel

  const MAX_TEXT_BYTES := 60

  /** `(b & 0xC0) == 0x80`: the byte continues a character. */
  predicate IsContinuation(b: Byte) {
    b / 64 == 2
  }

  /** The number of bytes of the character that starts with `b`; 0 if none does. */
  function Width(b: Byte): nat {
    if b < 0x80 then 1
    else if b < 0xC0 then 0
    else if b < 0xE0 then 2
    else if b < 0xF0 then 3
    else if b < 0xF8 then 4
    else 0
  }

  /** A lead byte followed by as many continuation bytes as it announces. */
  ghost predicate StartsCharacter(text: seq<Byte>) {
    && text != [] && 0 < Width(text[0]) <= |text|
    && forall i :: 1 <= i < Width(text[0]) ==> IsContinuation(text[i])
  }

  /** A sequence of whole characters. */
  ghost predicate WholeCharacters(text: seq<Byte>)
    decreases |text|
  {
    text == [] || (StartsCharacter(text) && WholeCharacters(text[Width(text[0])..]))
  }

  method TruncatedLength(text: seq<Byte>) returns (textLength: nat)
    ensures textLength == CutAt(text)
  {
    textLength := |text|;
    if textLength > MAX_TEXT_BYTES {
      textLength := MAX_TEXT_BYTES;
      while textLength > 0 && IsContinuation(text[textLength])
        invariant textLength <= MAX_TEXT_BYTES
        invariant LastStart(text, textLength) == LastStart(text, MAX_TEXT_BYTES)
      {
        textLength := textLength - 1;
      }
    }
  }

  /** The last position up to `k` that does not continue a character, or 0. */
  function LastStart(text: seq<Byte>, k: nat): (n: nat)
    requires k < |text|
    ensures n <= k && (n == 0 || !IsContinuation(text[n]))
    ensures forall j :: n < j <= k ==> IsContinuation(text[j])
  {
    if k == 0 || !IsContinuation(text[k]) then k else LastStart(text, k - 1)
  }

  function CutAt(text: seq<Byte>): (n: nat)
    ensures n <= |text| && n <= MAX_TEXT_BYTES
    ensures |text| > 60 ==>
              (n == 0 || !(0x80 <= text[n] <= 0xBF)) && forall j :: n < j <= 60 ==> 0x80 <= text[j] <= 0xBF
  {
    if |text| <= MAX_TEXT_BYTES then |text| else LastStart(text, MAX_TEXT_BYTES)
  }

  /** The payload of PGN 0xDD, if anything is sent. */
  method HardwarePayload(text: seq<Byte>, duration: Byte, color: Byte) returns (sent: bool, data: seq<Byte>)
    ensures sent <==> CutAt(text) != 0
    ensures sent ==> data == [duration, color] + text[..CutAt(text)] && 3 <= |data| <= 62
  {
    sent, data := false, [];
    if text != [] {
      var textLength := TruncatedLength(text);
      var message := text[..textLength];
      if message != [] {
        data := [duration, color] + message;
        sent := true;
      }
    }
  }

  /** In a text of whole characters a position is between two characters exactly if no continuation byte follows. */
  lemma {:induction false} BoundariesAreStarts(text: seq<Byte>, k: nat)
    requires WholeCharacters(text) && k < |text|
    ensures !IsContinuation(text[k]) <==> WholeCharacters(text[..k])
    ensures !IsContinuation(text[k]) <==> WholeCharacters(text[k..])
    decreases |text|
  {
    var w := Width(text[0]);
    if k == 0 {
      assert text[..0] == [] && text[0..] == text;
    } else if k < w {
      assert text[..k][0] == text[0] && !StartsCharacter(text[..k]);
      assert text[k..][0] == text[k];
    } else {
      BoundariesAreStarts(text[w..], k - w);
      assert text[w..][k - w] == text[k] && text[w..][k - w..] == text[k..];
      assert text[..k][w..] == text[w..][..k - w];
      assert WholeCharacters(text[..k]) <==> WholeCharacters(text[..k][w..]) by {
        assert text[..k][0] == text[0] && StartsCharacter(text[..k]);
      }
    }
  }

  /**
   A text of whole characters is cut to whole characters, and not sooner than necessary: it is cut only
   if it is too long, what remains begins with a whole character, and that one would not have fitted.
   */
  lemma CutKeepsWholeCharacters(text: seq<Byte>)
    requires WholeCharacters(text)
    ensures WholeCharacters(text[..CutAt(text)])
    ensures |text| <= 60 ==> CutAt(text) == |text|
    ensures |text| > 60 ==> var n := CutAt(text);
              && 57 <= n
              && WholeCharacters(text[n..])
              && n + Width(text[n]) > 60
  {
    var n := CutAt(text);
    if |text| <= MAX_TEXT_BYTES {
      assert text[..n] == text;
    } else {
      assert !IsContinuation(text[n]);
      BoundariesAreStarts(text, n);
      var rest := text[n..];
      assert rest[0] == text[n];
      var w := Width(text[n]);
      if n + w <= MAX_TEXT_BYTES {
        NextStart(text, n);
      }
    }
  }

  /** The character after a character starts again with a lead byte. */
  lemma NextStart(text: seq<Byte>, n: nat)
    requires n < |text| && WholeCharacters(text[n..]) && n + Width(text[n]) < |text|
    ensures !IsContinuation(text[n + Width(text[n])])
  {
    var rest := text[n..];
    var w := Width(text[n]);
    assert rest[0] == text[n];
    assert rest[w..][0] == text[n + w];
    assert StartsCharacter(rest[w..]);
  }

  /** A non-empty text of whole characters is never dropped altogether. */
  lemma WholeTextIsSent(text: seq<Byte>)
    requires WholeCharacters(text) && text != []
    ensures CutAt(text) != 0
  {
    CutKeepsWholeCharacters(text);
  }
}
