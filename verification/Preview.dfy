/** Bounded inline preview of a text attachment. */
module Preview {
  import opened Prelude
  import opened Utf8

  const PREVIEW_LIMIT_BYTES: nat := 16 * 1024

  datatype AttachmentPreview = AttachmentPreview(inlineText: Option<Bytes>, truncated: bool, previewBytes: nat)

  /**
   * Read one byte more than the limit, cut at the limit, and keep the longest valid prefix of a cut file.
   * Text comes back exactly when the kept bytes are valid, or the file was cut and starts with a valid sequence.
   */
  method PreviewAttachment(textLike: bool, file: Bytes) returns (p: AttachmentPreview)
    ensures p.inlineText.Some? <==>
              textLike && (Valid(file[..Min(|file|, PREVIEW_LIMIT_BYTES)])
                           || (|file| > PREVIEW_LIMIT_BYTES && SequenceLength(file[..PREVIEW_LIMIT_BYTES]) > 0))
    ensures p.inlineText.Some? ==>
              && p.previewBytes == |p.inlineText.value|
              && p.truncated == (|file| > PREVIEW_LIMIT_BYTES)
              && p.inlineText.value == file[..ValidUpTo(file[..Min(|file|, PREVIEW_LIMIT_BYTES)])]
    ensures p.inlineText.None? ==> !p.truncated && p.previewBytes == 0
  {
    if !textLike {
      return AttachmentPreview(None, false, 0);
    }
    var read := Min(|file|, PREVIEW_LIMIT_BYTES + 1);
    var buf := file[..read];
    var truncated := read > PREVIEW_LIMIT_BYTES;
    buf := buf[..Min(read, PREVIEW_LIMIT_BYTES)];
    assert buf == file[..Min(|file|, PREVIEW_LIMIT_BYTES)];
    var inline: Option<Bytes> := None;
    var upTo := ValidUpTo(buf);
    if upTo == |buf| {
      inline := Some(buf);
    } else if truncated && upTo > 0 {
      inline := Some(buf[..upTo]);
    }
    if inline.Some? {
      p := AttachmentPreview(inline, truncated, |inline.value|);
    } else {
      p := AttachmentPreview(None, false, 0);
    }
  }

  /**
   * A valid file always previews: the whole file when it fits, otherwise a prefix that ends on a
   * character boundary at most three bytes short of the limit.
   */
  method PreviewValidFile(file: Bytes) returns (text: Bytes)
    requires Valid(file)
    ensures text <= file && Valid(text) && Valid(file[|text|..])
    ensures |file| <= PREVIEW_LIMIT_BYTES ==> text == file
    ensures |file| > PREVIEW_LIMIT_BYTES ==>
              && PREVIEW_LIMIT_BYTES - 3 <= |text| <= PREVIEW_LIMIT_BYTES
              && |text| == ValidUpTo(file[..PREVIEW_LIMIT_BYTES])
              && (|text| == PREVIEW_LIMIT_BYTES <==> Valid(file[..PREVIEW_LIMIT_BYTES]))
  {
    var p := PreviewAttachment(true, file);
    CutValid(file, Min(|file|, PREVIEW_LIMIT_BYTES));
    if |file| <= PREVIEW_LIMIT_BYTES {
      assert file[..|file|] == file;
      assert file[|file|..] == [];
    } else {
      CutSequence(file, PREVIEW_LIMIT_BYTES);
    }
    text := p.inlineText.value;
  }

  // ----- a preview shorter than announced

  function Letters(n: nat): Bytes { seq(n, i => 97) }

  lemma {:induction false} LettersAreValid(n: nat, tail: Bytes)
    ensures ValidUpTo(Letters(n) + tail) == n + ValidUpTo(tail)
  {
    if n == 0 {
      assert Letters(0) + tail == tail;
    } else {
      LettersAreValid(n - 1, tail);
      assert (Letters(n) + tail)[1..] == Letters(n - 1) + tail;
    }
  }

  /** A valid file whose last character straddles the limit: its preview ends three bytes before the limit. */
  lemma ShortPreview() returns (file: Bytes)
    ensures Valid(file) && |file| == PREVIEW_LIMIT_BYTES + 1
    ensures ValidUpTo(file[..PREVIEW_LIMIT_BYTES]) == PREVIEW_LIMIT_BYTES - 3
  {
    var smile: Bytes := [0xF0, 0x9F, 0x98, 0x80];
    var n := PREVIEW_LIMIT_BYTES - 3;
    file := Letters(n) + smile;
    assert smile[4..] == [];
    LettersAreValid(n, smile);
    LettersAreValid(n, smile[..3]);
    assert file[..PREVIEW_LIMIT_BYTES] == Letters(n) + smile[..3];
  }
}
