/** `compressImageToWebP` and the input-format gate of `pickImage` in app/editprofile.tsx: an image is
    re-encoded as WebP at falling quality until one encoding fits a 50 KB budget. The image encoder
    (`manipulateAsync`) and the size read (`fetch(uri).blob().size`) are one oracle. */
module ImageCompression {
  import opened Optional

  const JpegType: string := "image/jpeg"
  const PngType: string := "image/png"
  const WebpType: string := "image/webp"

  /** Encoder quality in hundredths: the loop starts at 0.6 and steps down by 0.05 while it is above 0.05. */
  const StartQuality: int := 60
  const QualityStep: int := 5
  const QualityFloor: int := 5

  /** The qualities 60, 55, ..., 10 are the ones above the floor. */
  const MaxAttempts: nat := 11

  /** 50 KB in bytes. */
  const SizeBudget: nat := 51200

  /** A picked image. The fields other than `uri` and `mimeType` stand for the rest of the picker's
      asset record, which the loop copies without looking at it. */
  datatype Asset = Asset(
    uri: string,
    mimeType: Option<string>,
    width: nat,
    height: nat,
    fileName: Option<string>,
    fileSize: Option<nat>)

  /** What one attempt produces: the location of the new WebP file and its size in bytes. */
  datatype Encoded = Encoded(uri: string, size: nat)

  /** One attempt: resize the image at the given location to 400 pixels wide, encode it as WebP at the
      given quality, and read the size of the result. `None` when the encoder or the size read throws. */
  type Encoder = (string, int) -> Option<Encoded>

  /** The record of one encoder call: its input location, its quality and what it answered. */
  datatype Attempt = Attempt(source: string, quality: int, reply: Option<Encoded>)

  /** The outcome of the loop: the returned asset (`None` when an attempt threw) and every call made. */
  datatype Compression = Compression(result: Option<Asset>, attempts: seq<Attempt>)

  /** `['image/jpeg', 'image/png'].includes(mimeType || '')`. */
  predicate AcceptedInput(mimeType: Option<string>) {
    mimeType == Some(JpegType) || mimeType == Some(PngType)
  }

  /** `blob.size / 1024 <= 50`; the division by a power of two is exact for any realistic size. */
  predicate Fits(e: Encoded): (b: bool)
    ensures b <==> e.size <= SizeBudget
  {
    (e.size as real) / 1024.0 <= 50.0
  }

  /** The quality of the attempt numbered `k` from 0. */
  function QualityAt(k: nat): int {
    StartQuality - QualityStep * k
  }

  /** The loop from the point where `quality` is the current quality and `current` is the location of
      the latest image: `image` with `uri` replaced by `current` is the source's `compressedImage`. */
  function CompressFrom(image: Asset, current: string, quality: int, encode: Encoder): (c: Compression)
    ensures c.attempts == [] <==> quality <= QualityFloor
    ensures quality > QualityFloor ==> c.attempts[0] == Attempt(current, quality, encode(current, quality))
    decreases quality
  {
    if quality <= QualityFloor then Compression(Some(image.(uri := current)), [])
    else
      var reply := encode(current, quality);
      var attempt := Attempt(current, quality, reply);
      match reply
      case None => Compression(None, [attempt])
      case Some(e) =>
        if Fits(e) then Compression(Some(image.(uri := e.uri, mimeType := Some(WebpType))), [attempt])
        else
          var rest := CompressFrom(image, e.uri, quality - QualityStep, encode);
          Compression(rest.result, [attempt] + rest.attempts)
  }

  /** `compressImageToWebP(image)`: the whole loop, starting from the picked image at quality 0.6. */
  function Compress(image: Asset, encode: Encoder): (c: Compression)
    ensures c.attempts != [] && c.attempts[0] == Attempt(image.uri, StartQuality, encode(image.uri, StartQuality))
  {
    CompressFrom(image, image.uri, StartQuality, encode)
  }

  /** The attempts made from `quality` on use `quality`, then 5 less each time, and all lie above the floor. */
  lemma {:induction false} QualitiesFrom(image: Asset, current: string, quality: int, encode: Encoder, c: Compression)
    requires c == CompressFrom(image, current, quality, encode)
    ensures
      forall i :: 0 <= i < |c.attempts| ==>
        c.attempts[i].quality == quality - QualityStep * i && c.attempts[i].quality > QualityFloor
    decreases quality
  {
    if quality > QualityFloor {
      var reply := encode(current, quality);
      if reply.Some? && !Fits(reply.value) {
        var rest := CompressFrom(image, reply.value.uri, quality - QualityStep, encode);
        QualitiesFrom(image, reply.value.uri, quality - QualityStep, encode, rest);
        assert c.attempts == [c.attempts[0]] + rest.attempts;
        forall i | 1 <= i < |c.attempts|
          ensures c.attempts[i].quality == quality - QualityStep * i
        {
          assert c.attempts[i] == rest.attempts[i - 1];
          assert rest.attempts[i - 1].quality == quality - QualityStep - QualityStep * (i - 1);
          assert QualityStep * i == QualityStep + QualityStep * (i - 1);
        }
      }
    }
  }

  /** Every recorded attempt is a real call of the encoder; the first reads `current`, and every later one
      reads the file the previous attempt wrote, which neither failed nor fitted the budget. */
  lemma {:induction false} ChainFrom(image: Asset, current: string, quality: int, encode: Encoder, c: Compression)
    requires c == CompressFrom(image, current, quality, encode)
    ensures
      && (quality > QualityFloor ==> |c.attempts| > 0 && c.attempts[0].source == current)
      && (forall i :: 0 <= i < |c.attempts| ==>
            c.attempts[i].reply == encode(c.attempts[i].source, c.attempts[i].quality))
      && (forall i :: 0 <= i < |c.attempts| - 1 ==>
            c.attempts[i].reply.Some? && !Fits(c.attempts[i].reply.value)
            && c.attempts[i + 1].source == c.attempts[i].reply.value.uri)
    decreases quality
  {
    if quality > QualityFloor {
      var reply := encode(current, quality);
      if reply.Some? && !Fits(reply.value) {
        var rest := CompressFrom(image, reply.value.uri, quality - QualityStep, encode);
        ChainFrom(image, reply.value.uri, quality - QualityStep, encode, rest);
        assert c.attempts == [c.attempts[0]] + rest.attempts;
        forall i | 1 <= i < |c.attempts|
          ensures c.attempts[i] == rest.attempts[i - 1]
        {
        }
      }
    }
  }

  /** What the loop returns is decided by its last attempt: a failure is passed on, a fitting encoding is
      returned as WebP, and when the floor is reached the last encoding is returned under the input's
      own `mimeType`. Every other field is the input's. */
  lemma {:induction false} OutcomeFrom(image: Asset, current: string, quality: int, encode: Encoder, c: Compression)
    requires c == CompressFrom(image, current, quality, encode)
    ensures
      && (|c.attempts| == 0 <==> quality <= QualityFloor)
      && (|c.attempts| == 0 ==> c.result == Some(image.(uri := current)))
      && (|c.attempts| > 0 ==>
            var last := c.attempts[|c.attempts| - 1];
            && (last.reply.None? ==> c.result.None?)
            && (last.reply.Some? && Fits(last.reply.value) ==>
                  c.result == Some(image.(uri := last.reply.value.uri, mimeType := Some(WebpType))))
            && (last.reply.Some? && !Fits(last.reply.value) ==>
                  last.quality - QualityStep <= QualityFloor
                  && c.result == Some(image.(uri := last.reply.value.uri))))
    decreases quality
  {
    if quality > QualityFloor {
      var reply := encode(current, quality);
      if reply.Some? && !Fits(reply.value) {
        var rest := CompressFrom(image, reply.value.uri, quality - QualityStep, encode);
        OutcomeFrom(image, reply.value.uri, quality - QualityStep, encode, rest);
        assert c.attempts == [c.attempts[0]] + rest.attempts;
        if |rest.attempts| > 0 {
          assert c.attempts[|c.attempts| - 1] == rest.attempts[|rest.attempts| - 1];
        }
      }
    }
  }

  /** The loop tries qualities 60, 55, ... in hundredths, all above 5, so it makes between 1 and 11
      encoder calls and always ends. */
  lemma AttemptsAreBounded(image: Asset, encode: Encoder, c: Compression)
    requires c == Compress(image, encode)
    ensures
      && 1 <= |c.attempts| <= MaxAttempts
      && forall i :: 0 <= i < |c.attempts| ==>
           c.attempts[i].quality == QualityAt(i) && c.attempts[i].quality > QualityFloor
  {
    QualitiesFrom(image, image.uri, StartQuality, encode, c);
    OutcomeFrom(image, image.uri, StartQuality, encode, c);
    assert c.attempts[|c.attempts| - 1].quality > QualityFloor;
  }

  /** The loop stops at the first encoding within 51200 bytes: every earlier attempt succeeded but was too
      large, and nothing is encoded after the one that fits. */
  lemma StopsAtFirstFit(image: Asset, encode: Encoder, c: Compression)
    requires c == Compress(image, encode)
    ensures
      && (forall i :: 0 <= i < |c.attempts| - 1 ==>
            c.attempts[i].reply.Some? && !Fits(c.attempts[i].reply.value))
      && (forall i :: 0 <= i < |c.attempts| && c.attempts[i].reply.Some? && Fits(c.attempts[i].reply.value) ==>
            i == |c.attempts| - 1)
  {
    ChainFrom(image, image.uri, StartQuality, encode, c);
  }

  /** The first attempt reads the picked image, and each later attempt re-encodes the previous output. */
  lemma AttemptsChain(image: Asset, encode: Encoder, c: Compression)
    requires c == Compress(image, encode)
    ensures
      && c.attempts[0].source == image.uri
      && (forall i :: 0 <= i < |c.attempts| ==>
            c.attempts[i].reply == encode(c.attempts[i].source, c.attempts[i].quality))
      && (forall i :: 0 <= i < |c.attempts| - 1 ==>
            c.attempts[i].reply.Some? && c.attempts[i + 1].source == c.attempts[i].reply.value.uri)
  {
    ChainFrom(image, image.uri, StartQuality, encode, c);
  }

  /** On success the result is the input asset with the fitting attempt's location and type WebP. */
  lemma SuccessIsWebp(image: Asset, encode: Encoder, c: Compression)
    requires c == Compress(image, encode)
    ensures
      var last := c.attempts[|c.attempts| - 1];
      last.reply.Some? && Fits(last.reply.value) ==>
        c.result == Some(image.(uri := last.reply.value.uri, mimeType := Some(WebpType)))
  {
    OutcomeFrom(image, image.uri, StartQuality, encode, c);
  }

  /** When no attempt fits, all 11 qualities are tried, no error is raised, and the result is the last
      WebP file but still carries the input's `mimeType` (JPEG or PNG), not `image/webp`. */
  lemma FallbackKeepsInputType(image: Asset, encode: Encoder, c: Compression)
    requires c == Compress(image, encode)
    ensures
      var last := c.attempts[|c.attempts| - 1];
      last.reply.Some? && !Fits(last.reply.value) ==>
        && |c.attempts| == MaxAttempts
        && c.result == Some(image.(uri := last.reply.value.uri))
        && c.result.value.mimeType == image.mimeType
  {
    AttemptsAreBounded(image, encode, c);
    OutcomeFrom(image, image.uri, StartQuality, encode, c);
  }

  /** A throwing encoder call ends the loop at once: it is the last call, and no asset is returned. */
  lemma FailureStopsLoop(image: Asset, encode: Encoder, c: Compression)
    requires c == Compress(image, encode)
    ensures
      && (forall i :: 0 <= i < |c.attempts| && c.attempts[i].reply.None? ==> i == |c.attempts| - 1)
      && (c.result.None? <==> c.attempts[|c.attempts| - 1].reply.None?)
  {
    ChainFrom(image, image.uri, StartQuality, encode, c);
    OutcomeFrom(image, image.uri, StartQuality, encode, c);
  }

  /** The loop as the source writes it, with a mutable quality and a mutable `compressedImage`. */
  method CompressImageToWebP(image: Asset, encode: Encoder) returns (result: Option<Asset>, attempts: seq<Attempt>)
    ensures Compression(result, attempts) == Compress(image, encode)
    ensures 1 <= |attempts| <= MaxAttempts
    ensures result.Some? ==> result.value.(uri := image.uri, mimeType := image.mimeType) == image
  {
    ghost var total := Compress(image, encode);
    AttemptsAreBounded(image, encode, total);
    var quality := StartQuality;
    var compressed := image;
    attempts := [];
    while quality > QualityFloor
      invariant compressed == image.(uri := compressed.uri)
      invariant total.attempts == attempts + CompressFrom(image, compressed.uri, quality, encode).attempts
      invariant total.result == CompressFrom(image, compressed.uri, quality, encode).result
      decreases quality
    {
      var reply := encode(compressed.uri, quality);
      var attempt := Attempt(compressed.uri, quality, reply);
      ghost var rest := CompressFrom(image, compressed.uri, quality, encode);
      attempts := attempts + [attempt];
      if reply.None? {
        assert rest == Compression(None, [attempt]);
        return None, attempts;
      }
      var e := reply.value;
      if Fits(e) {
        result := Some(compressed.(uri := e.uri, mimeType := Some(WebpType)));
        assert rest == Compression(result, [attempt]);
        return;
      }
      ghost var next := CompressFrom(image, e.uri, quality - QualityStep, encode);
      assert rest == Compression(next.result, [attempt] + next.attempts);
      quality := quality - QualityStep;
      compressed := compressed.(uri := e.uri);
    }
    result := Some(compressed);
  }
}
