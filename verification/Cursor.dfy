/** Paging cursors (src/store.rs). */
module Cursor {
  import opened Machine
  import opened Text
  import opened Decimal

  /** A cursor as a client presents it: `Garbled` when the outer base64 or UTF-8
      layer does not decode, otherwise the text beneath it. */
  datatype Cursor = Garbled | Plain(text: Text)

  const INVALID := InvalidInput("invalid cursor")

  function EncodeCursor(recipient: Text, seqNo: u64): Cursor {
    Plain(recipient + [COLON] + Padded(seqNo, 20))
  }

  function DecodeCursor(c: Cursor): Result<(Text, u64)> {
    match c
    case Garbled => Err(INVALID)
    case Plain(text) =>
      var i := FirstColon(text);
      if i == |text| then Err(INVALID)
      else
        match ParseU64(text[i + 1..])
        case None => Err(INVALID)
        case Some(s) => Ok((text[..i], s))
  }

  lemma DecodeFields(field: Text, rest: Text)
    requires COLON !in field
    ensures DecodeCursor(Plain(field + [COLON] + rest)) ==
            match ParseU64(rest) case None => Err(INVALID) case Some(s) => Ok((field, s))
  {
    var text := field + [COLON] + rest;
    FirstColonIs(field, rest);
    assert text[..|field|] == field && text[|field| + 1..] == rest;
  }

  /** The round trip holds exactly for recipients without a colon; for the others
      the server refuses its own cursor. */
  lemma CursorRoundTrip(recipient: Text, s: u64)
    ensures DecodeCursor(EncodeCursor(recipient, s)) ==
            if COLON !in recipient then Ok((recipient, s)) else Err(INVALID)
  {
    var digits := Padded(s, 20);
    if COLON !in recipient {
      Padded20(s);
      DecodeFields(recipient, digits);
    } else {
      ColonInside(recipient, digits);
    }
  }

  lemma ColonInside(recipient: Text, digits: Text)
    requires COLON in recipient
    ensures DecodeCursor(Plain(recipient + [COLON] + digits)) == Err(INVALID)
  {
    var i := FirstColon(recipient);
    var rest := recipient[i + 1..] + [COLON] + digits;
    assert recipient + [COLON] + digits == recipient[..i] + [COLON] + rest;
    NotANumber(rest, |recipient| - (i + 1));
    DecodeFields(recipient[..i], rest);
  }

  lemma NotANumber(t: Text, at: nat)
    requires at < |t| && t[at] == COLON
    ensures ParseU64(t) == None
  {
    var digits := if |t| > 1 && t[0] == PLUS then t[1..] else t;
    if digits != t {
      assert digits[at - 1] == COLON;
    }
  }

  /** A decoded cursor names the text before its first colon. */
  lemma DecodedRecipient(c: Cursor)
    requires DecodeCursor(c).Ok?
    ensures COLON !in DecodeCursor(c).value.0
  {
  }

  /** A cursor's text is the recipient, a colon and twenty digits. */
  lemma CursorText(recipient: Text, s: u64)
    ensures var c, n := EncodeCursor(recipient, s), |recipient|;
            c.Plain? && |c.text| == n + 21 && Field(c.text, 0, recipient) && c.text[n] == 58 && Number(c.text, n + 1, 20, s)
  {
    hide Padded, Value, AllDigits;
    Padded20(s);
    U64Fits20();
    PaddedValue(s, 20);
    var text, n := EncodeCursor(recipient, s).text, |recipient|;
    assert text[n + 1..n + 21] == Padded(s, 20);
    assert text[..n] == recipient;
  }
}
