/** Attachments from a consumed lease to the wire: AttachmentBroker.consume, the prompt that
    AppController composes from it, and the limits both transports enforce.
    Text lengths count the characters of a JavaScript string. */
module Attachments {
  import opened Base64
  import opened Results

  datatype Mime = Png | Jpeg | Gif | Webp
  datatype Block = Text(text: string) | Image(data: string, mime: Mime)
  datatype Error = InvalidRequest | Unavailable | ImageTooLarge | TotalTooLarge | InvalidImage

  const MAX_BLOCKS := 19
  const MAX_IMAGES := 16
  const MAX_TEXT_CHARS := 200_000
  const MAX_TOTAL_TEXT_CHARS := 400_000
  const MAX_IMAGE_BYTES := 8 * 1024 * 1024
  const MAX_TOTAL_IMAGE_BYTES := 24 * 1024 * 1024
  const MAX_ENCODED_CHARS := (MAX_IMAGE_BYTES + 2) / 3 * 4
  const MAX_ATTACHMENTS := 16
  const MAX_LABEL_CHARS := 1_024

  // ---------- The two signature checks ----------

  /** `expected.every((value, index) => actual[index] === value)` */
  predicate Matches(actual: seq<int>, expected: seq<int>) {
    |expected| <= |actual| && actual[..|expected|] == expected
  }

  const PNG := [0x89, 0x50, 0x4e, 0x47, 0x0d, 0x0a, 0x1a, 0x0a]
  const JPEG := [0xff, 0xd8, 0xff]
  const GIF87A := [0x47, 0x49, 0x46, 0x38, 0x37, 0x61]
  const GIF89A := [0x47, 0x49, 0x46, 0x38, 0x39, 0x61]
  const RIFF := [0x52, 0x49, 0x46, 0x46]
  const WEBP := [0x57, 0x45, 0x42, 0x50]

  function From(s: seq<int>, n: nat): seq<int> { if n <= |s| then s[n..] else [] }

  /** The check on the encoded side, over the decoded prefix. */
  predicate HasImageSignature(data: string, mime: Mime) {
    SignaturePrefix(DecodePrefix(data, 12), mime)
  }

  predicate SignaturePrefix(prefix: seq<int>, mime: Mime) {
    match mime
    case Png => Matches(prefix, PNG)
    case Jpeg => Matches(prefix, JPEG)
    case Gif => Matches(prefix, GIF87A) || Matches(prefix, GIF89A)
    case Webp => Matches(prefix, RIFF) && Matches(From(prefix, 8), WEBP)
  }

  /** `buffer.toString('ascii')`: Node clears the high bit of every byte it decodes. */
  function Ascii(b: seq<byte>): (s: seq<byte>)
    ensures |s| == |b| && forall i :: 0 <= i < |b| ==> s[i] == b[i] % 128
  {
    seq(|b|, i requires 0 <= i < |b| => b[i] % 128)
  }

  /** The check on the byte side, before a block is built. */
  predicate HasExpectedImageSignature(data: seq<byte>, mime: Mime) {
    match mime
    case Png => |data| >= 8 && data[..8] == PNG
    case Jpeg => |data| >= 3 && data[0] == 0xff && data[1] == 0xd8 && data[2] == 0xff
    case Gif => |data| >= 6 && (Ascii(data[..6]) == GIF87A || Ascii(data[..6]) == GIF89A)
    case Webp => |data| >= 12 && Ascii(data[..4]) == RIFF && Ascii(data[8..12]) == WEBP
  }

  predicate SevenBit(b: seq<byte>) { forall i :: 0 <= i < |b| ==> b[i] < 128 }

  /** No signature byte of a text signature has its high bit set. */
  predicate SevenBitSignature(data: seq<byte>, mime: Mime) {
    (mime == Gif && |data| >= 6 ==> SevenBit(data[..6])) &&
    (mime == Webp && |data| >= 12 ==> SevenBit(data[..4]) && SevenBit(data[8..12]))
  }

  lemma AsciiEquals(b: seq<byte>, text: seq<byte>)
    requires SevenBit(text)
    ensures b == text <==> Ascii(b) == text && SevenBit(b)
  {}

  lemma GifChecks(data: seq<byte>, prefix: seq<int>)
    requires prefix == Take(data, 12)
    ensures SignaturePrefix(prefix, Gif)
            <==> HasExpectedImageSignature(data, Gif) && SevenBitSignature(data, Gif)
  {
    if |data| >= 6 {
      assert prefix[..6] == data[..6];
      AsciiEquals(data[..6], GIF87A);
      AsciiEquals(data[..6], GIF89A);
    }
  }

  lemma WebpChecks(data: seq<byte>, prefix: seq<int>)
    requires prefix == Take(data, 12)
    ensures SignaturePrefix(prefix, Webp)
            <==> HasExpectedImageSignature(data, Webp) && SevenBitSignature(data, Webp)
  {
    if |data| >= 12 {
      assert prefix[..4] == data[..4] && From(prefix, 8)[..4] == data[8..12];
      AsciiEquals(data[..4], RIFF);
      AsciiEquals(data[8..12], WEBP);
    }
  }

  /** The two checks agree except on text signatures that only match once the high bits are
      cleared: those pass the broker and fail the wire schema. */
  lemma SignatureChecksAgree(data: seq<byte>, mime: Mime)
    ensures HasImageSignature(Encode(data), mime)
            <==> HasExpectedImageSignature(data, mime) && SevenBitSignature(data, mime)
  {
    PrefixDecoderReadsBack(data, 12);
    var prefix := Take(data, 12);
    hide DecodePrefix, Encode, Ascii;
    match mime
    case Gif => GifChecks(data, prefix);
    case Webp => WebpChecks(data, prefix);
    case Png =>
      if |data| >= 8 {
        assert prefix[..8] == data[..8];
      }
    case Jpeg =>
      if |data| >= 3 {
        assert prefix[..3] == data[..3] == [data[0], data[1], data[2]];
      }
  }

  lemma SignatureChecksDiffer()
    ensures var data: seq<byte> := [0xc7, 0x49, 0x46, 0x38, 0x37, 0x61];
            HasExpectedImageSignature(data, Gif) && !HasImageSignature(Encode(data), Gif)
  {
    var data: seq<byte> := [0xc7, 0x49, 0x46, 0x38, 0x37, 0x61];
    assert Ascii(data) == GIF87A && data[..6] == data;
    assert data[..6][0] == 0xc7;
    SignatureChecksAgree(data, Gif);
    hide HasImageSignature, Encode;
  }

  // ---------- Consuming a lease ----------

  datatype Picture = Picture(displayName: string, mime: Mime)
  datatype Lease = Lease(notePaths: seq<string>, pictures: seq<Picture>)
  datatype Limits = Limits(imageBytes: nat, totalImageBytes: nat)

  /** What the open handle of a picture yields when the lease is consumed. */
  datatype Read = Broken | Bytes(b: seq<byte>)

  /** Staging bounds the count, refuses an empty selection and cuts every label. */
  predicate StagedLease(lease: Lease) {
    && 0 < |lease.notePaths| + |lease.pictures| <= MAX_ATTACHMENTS
    && (forall p <- lease.notePaths :: |p| <= MAX_LABEL_CHARS)
    && (forall p <- lease.pictures :: |p.displayName| <= MAX_LABEL_CHARS)
  }

  predicate LoweredLimits(limits: Limits) {
    limits.imageBytes <= MAX_IMAGE_BYTES && limits.totalImageBytes <= MAX_TOTAL_IMAGE_BYTES
  }

  function Join(parts: seq<string>, separator: string): string {
    if parts == [] then "" else if |parts| == 1 then parts[0]
    else parts[0] + separator + Join(parts[1..], separator)
  }

  function Dashed(paths: seq<string>): (r: seq<string>)
    ensures |r| == |paths| && forall i :: 0 <= i < |paths| ==> r[i] == "- " + paths[i]
  {
    seq(|paths|, i requires 0 <= i < |paths| => "- " + paths[i])
  }

  function FileNote(paths: seq<string>): seq<Block> {
    if |paths| == 0 then []
    else if |paths| == 1 then [Text("Attached file: " + paths[0])]
    else [Text("Attached files:\n" + Join(Dashed(paths), "\n"))]
  }

  function Names(pictures: seq<Picture>): (r: seq<string>)
    ensures |r| == |pictures| && forall i :: 0 <= i < |pictures| ==> r[i] == pictures[i].displayName
  {
    seq(|pictures|, i requires 0 <= i < |pictures| => pictures[i].displayName)
  }

  function ImageNote(pictures: seq<Picture>): seq<Block> {
    if |pictures| == 0 then []
    else if |pictures| == 1 then [Text("Attached image: " + pictures[0].displayName)]
    else [Text("Attached images: " + Join(Names(pictures), ", "))]
  }

  /** The parts are there one after the other, none overlapping the next. */
  ghost predicate Shows(text: string, parts: seq<string>)
    decreases |parts|, 1
  {
    parts == [] || exists i: nat :: FirstShownAt(text, parts, i)
  }

  ghost predicate FirstShownAt(text: string, parts: seq<string>, i: nat)
    requires parts != []
    decreases |parts|, 0
  {
    var next := i + |parts[0]|;
    next <= |text| && text[i..next] == parts[0] && Shows(text[next..], parts[1..])
  }

  function Chars(parts: seq<string>): nat { if parts == [] then 0 else |parts[0]| + Chars(parts[1..]) }

  lemma {:induction false} JoinShows(front: string, parts: seq<string>, separator: string)
    ensures Shows(front + Join(parts, separator), parts)
    ensures parts != [] ==> |Join(parts, separator)| == Chars(parts) + (|parts| - 1) * |separator|
    decreases parts
  {
    if parts != [] {
      var text, first := front + Join(parts, separator), parts[0];
      var after := if |parts| == 1 then "" else separator;
      JoinShows(after, parts[1..], separator);
      assert text == front + first + (after + Join(parts[1..], separator));
      assert text[|front|..|front| + |first|] == first;
      assert text[|front| + |first|..] == after + Join(parts[1..], separator);
      assert FirstShownAt(text, parts, |front|);
      if |parts| > 1 {
        assert (|parts| - 2) * |separator| + |separator| == (|parts| - 1) * |separator|;
      }
    }
  }

  /** A note names everything that is attached, in order, and besides its heading, the dashes and the
      separators nothing else. */
  lemma NotesNameEverything(paths: seq<string>, pictures: seq<Picture>)
    ensures |FileNote(paths)| == if paths == [] then 0 else 1
    ensures |ImageNote(pictures)| == if pictures == [] then 0 else 1
    ensures |paths| == 1 ==> FileNote(paths)[0].text == "Attached file: " + paths[0]
    ensures |paths| > 1 ==>
              var text := FileNote(paths)[0].text;
              && |text| == |"Attached files:\n"| + Chars(Dashed(paths)) + |paths| - 1
              && "Attached files:\n" <= text && Shows(text[|"Attached files:\n"|..], Dashed(paths))
    ensures |pictures| == 1 ==> ImageNote(pictures)[0].text == "Attached image: " + pictures[0].displayName
    ensures |pictures| > 1 ==>
              var text := ImageNote(pictures)[0].text;
              && |text| == |"Attached images: "| + Chars(Names(pictures)) + 2 * (|pictures| - 1)
              && "Attached images: " <= text && Shows(text[|"Attached images: "|..], Names(pictures))
  {
    JoinShows("", Dashed(paths), "\n");
    JoinShows("", Names(pictures), ", ");
    hide Shows, Join, Chars;
    assert "" + Join(Dashed(paths), "\n") == Join(Dashed(paths), "\n");
    assert "" + Join(Names(pictures), ", ") == Join(Names(pictures), ", ");
  }

  function ReadStableImage(read: Read, maxBytes: nat): Result<seq<byte>, Error> {
    if read.Broken? then Failure(Unavailable)
    else if read.b == [] then Failure(InvalidImage)
    else if |read.b| > maxBytes then Failure(ImageTooLarge)
    else Success(read.b)
  }

  function ImageBlocks(pictures: seq<Picture>, files: seq<Read>, consumed: nat, limits: Limits)
    : Result<seq<Block>, Error>
    requires |pictures| == |files|
  {
    if pictures == [] then Success([]) else
    var data :- ReadStableImage(files[0], limits.imageBytes);
    if consumed + |data| > limits.totalImageBytes then Failure(TotalTooLarge)
    else if !HasExpectedImageSignature(data, pictures[0].mime) then Failure(InvalidImage)
    else
      var rest :- ImageBlocks(pictures[1..], files[1..], consumed + |data|, limits);
      Success([Image(Encode(data), pictures[0].mime)] + rest)
  }

  /** The result once the blocks `front` have been pushed already. */
  function Behind(front: seq<Block>, r: Result<seq<Block>, Error>): Result<seq<Block>, Error> {
    if r.Failure? then r else Success(front + r.value)
  }

  lemma BehindTwice(front: seq<Block>, next: seq<Block>, r: Result<seq<Block>, Error>)
    ensures Behind(front, Behind(next, r)) == Behind(front + next, r)
  {
    if r.Success? {
      assert front + (next + r.value) == front + next + r.value;
    }
  }

  lemma BehindNothing(r: Result<seq<Block>, Error>)
    ensures Behind([], r) == r
  {
    if r.Success? {
      assert [] + r.value == r.value;
    }
  }

  function Consumed(lease: Lease, files: seq<Read>, limits: Limits): Result<seq<Block>, Error>
    requires |lease.pictures| == |files|
  {
    var images :- ImageBlocks(lease.pictures, files, 0, limits);
    Success(FileNote(lease.notePaths) + ImageNote(lease.pictures) + images)
  }

  /** The loop of consume, with its running byte total. */
  method Consume(lease: Lease, files: seq<Read>, limits: Limits) returns (r: Result<seq<Block>, Error>)
    requires |lease.pictures| == |files|
    ensures r == Consumed(lease, files, limits)
  {
    hide Encode, HasExpectedImageSignature, FileNote, ImageNote;
    var blocks: seq<Block> := FileNote(lease.notePaths) + ImageNote(lease.pictures);
    ghost var notes := blocks;
    var consumed: nat := 0;
    assert lease.pictures[0..] == lease.pictures && files[0..] == files;
    assert blocks[|notes|..] == [];
    BehindNothing(ImageBlocks(lease.pictures, files, 0, limits));
    for i := 0 to |files|
      invariant notes <= blocks
      invariant ImageBlocks(lease.pictures, files, 0, limits) ==
                Behind(blocks[|notes|..], ImageBlocks(lease.pictures[i..], files[i..], consumed, limits))
    {
      ghost var whole := ImageBlocks(lease.pictures[i..], files[i..], consumed, limits);
      var read := ReadStableImage(files[i], limits.imageBytes);
      if read.Failure? { return Failure(read.error); }
      consumed := consumed + |read.value|;
      if consumed > limits.totalImageBytes { return Failure(TotalTooLarge); }
      if !HasExpectedImageSignature(read.value, lease.pictures[i].mime) { return Failure(InvalidImage); }
      var block := Image(Encode(read.value), lease.pictures[i].mime);
      assert lease.pictures[i..][1..] == lease.pictures[i + 1..] && files[i..][1..] == files[i + 1..];
      ghost var rest := ImageBlocks(lease.pictures[i + 1..], files[i + 1..], consumed, limits);
      assert whole == Behind([block], rest);
      BehindTwice(blocks[|notes|..], [block], rest);
      assert (blocks + [block])[|notes|..] == blocks[|notes|..] + [block];
      blocks := blocks + [block];
    }
    assert blocks == notes + blocks[|notes|..];
    assert lease.pictures[|files|..] == [];
    assert blocks[|notes|..] + [] == blocks[|notes|..];
    assert Behind(blocks[|notes|..], Success([])) == Success(blocks[|notes|..]);
    return Success(blocks);
  }

  // ---------- Composing the prompt ----------

  /** The image blocks, or the text blocks, in order. */
  function Only(images: bool, blocks: seq<Block>): (r: seq<Block>)
    ensures forall b <- r :: b.Image? == images
  {
    if blocks == [] then []
    else (if blocks[0].Image? == images then [blocks[0]] else []) + Only(images, blocks[1..])
  }

  function Texts(blocks: seq<Block>): (r: seq<string>)
    requires forall b <- blocks :: b.Text?
    ensures |r| == |blocks|
  {
    seq(|blocks|, i requires 0 <= i < |blocks| => blocks[i].text)
  }

  datatype Prompt = Prompt(blocks: seq<Block>, transcriptText: string)

  function UserText(text: string): seq<Block> { if text != "" then [Text(text)] else [] }

  /** The last note is the image note exactly when there are images; the user's text goes
      between the two notes. */
  function ComposeAttachmentPrompt(userText: string, consumed: seq<Block>): Result<Prompt, Error> {
    var notes := Only(false, consumed);
    var images := Only(true, consumed);
    var popped := |images| > 0 && |notes| > 0;
    var blocks := (if popped then notes[..|notes| - 1] else notes)
                  + UserText(userText)
                  + (if popped then notes[|notes| - 1..] else [])
                  + images;
    var transcript := Join(Texts(Only(false, blocks)), "\n\n");
    if transcript == "" || blocks == [] then Failure(InvalidRequest)
    else Success(Prompt(blocks, transcript))
  }

  // ---------- Which leases are consumed ----------

  function BytesOf(files: seq<Read>): nat {
    if files == [] then 0
    else BytesOf(files[..|files| - 1]) + if files[|files| - 1].Bytes? then |files[|files| - 1].b| else 0
  }

  /** What is wrong with picture `k`, if anything, after `consumed` bytes and the pictures before it. */
  function Complaint(pictures: seq<Picture>, files: seq<Read>, consumed: nat, limits: Limits, k: nat): Option<Error>
    requires |pictures| == |files| && k < |files|
  {
    if files[k].Broken? then Some(Unavailable)
    else if files[k].b == [] then Some(InvalidImage)
    else if |files[k].b| > limits.imageBytes then Some(ImageTooLarge)
    else if consumed + BytesOf(files[..k + 1]) > limits.totalImageBytes then Some(TotalTooLarge)
    else if !HasExpectedImageSignature(files[k].b, pictures[k].mime) then Some(InvalidImage)
    else None
  }

  ghost predicate FirstComplaint(pictures: seq<Picture>, files: seq<Read>, consumed: nat, limits: Limits, k: nat)
    requires |pictures| == |files|
  {
    && k < |files| && Complaint(pictures, files, consumed, limits, k).Some?
    && forall j :: 0 <= j < k ==> Complaint(pictures, files, consumed, limits, j).None?
  }

  ghost predicate Flawless(pictures: seq<Picture>, files: seq<Read>, consumed: nat, limits: Limits)
    requires |pictures| == |files|
  {
    forall j :: 0 <= j < |files| ==> Complaint(pictures, files, consumed, limits, j).None?
  }

  ghost predicate AllShown(images: seq<Block>, pictures: seq<Picture>, files: seq<Read>)
    requires |pictures| == |files|
  {
    |images| == |files| && forall k :: 0 <= k < |files| ==> files[k].Bytes? && images[k] == Image(Encode(files[k].b), pictures[k].mime)
  }

  lemma {:induction false} BytesOfRest(files: seq<Read>, k: nat)
    requires 0 < k <= |files|
    ensures BytesOf(files[..k]) == (if files[0].Bytes? then |files[0].b| else 0) + BytesOf(files[1..][..k - 1])
  {
    if k > 1 {
      BytesOfRest(files, k - 1);
      assert files[..k][..k - 1] == files[..k - 1];
      assert files[1..][..k - 1][..k - 2] == files[1..][..k - 2];
    } else {
      assert files[..1][..0] == [];
    }
  }

  lemma FirstBytes(files: seq<Read>)
    requires files != []
    ensures BytesOf(files[..1]) == if files[0].Bytes? then |files[0].b| else 0
  {
    BytesOfRest(files, 1);
    assert files[1..][..0] == [];
  }

  /** After a first picture without complaint, the complaints about the rest are the rest's own. */
  lemma ComplaintOfRest(pictures: seq<Picture>, files: seq<Read>, consumed: nat, limits: Limits, k: nat)
    requires |pictures| == |files| && 0 < k < |files| && files[0].Bytes?
    ensures Complaint(pictures, files, consumed, limits, k)
            == Complaint(pictures[1..], files[1..], consumed + |files[0].b|, limits, k - 1)
  {
    BytesOfRest(files, k + 1);
    hide HasExpectedImageSignature, BytesOf;
  }

  lemma {:induction false} ImageBlocksExactly(pictures: seq<Picture>, files: seq<Read>, consumed: nat, limits: Limits)
    requires |pictures| == |files|
    ensures var r := ImageBlocks(pictures, files, consumed, limits);
            if r.Success? then Flawless(pictures, files, consumed, limits) && AllShown(r.value, pictures, files)
            else exists k: nat :: FirstComplaint(pictures, files, consumed, limits, k)
                                  && Complaint(pictures, files, consumed, limits, k) == Some(r.error)
    decreases |files|
  {
    hide HasExpectedImageSignature, Encode;
    if files != [] {
      FirstBytes(files);
      hide BytesOf;
      if Complaint(pictures, files, consumed, limits, 0).Some? {
        assert FirstComplaint(pictures, files, consumed, limits, 0);
      } else {
        var more := consumed + |files[0].b|;
        ImageBlocksExactly(pictures[1..], files[1..], more, limits);
        LaterBlocks(pictures, files, consumed, limits, ImageBlocks(pictures[1..], files[1..], more, limits));
      }
    }
  }

  lemma LaterBlocks(pictures: seq<Picture>, files: seq<Read>, consumed: nat, limits: Limits, rest: Result<seq<Block>, Error>)
    requires 0 < |pictures| == |files| && Complaint(pictures, files, consumed, limits, 0).None?
    requires var more := consumed + |files[0].b|;
             if rest.Success? then Flawless(pictures[1..], files[1..], more, limits) && AllShown(rest.value, pictures[1..], files[1..])
             else exists k: nat :: FirstComplaint(pictures[1..], files[1..], more, limits, k)
                                   && Complaint(pictures[1..], files[1..], more, limits, k) == Some(rest.error)
    ensures if rest.Success? then
              Flawless(pictures, files, consumed, limits)
              && AllShown([Image(Encode(files[0].b), pictures[0].mime)] + rest.value, pictures, files)
            else exists k: nat :: FirstComplaint(pictures, files, consumed, limits, k)
                                  && Complaint(pictures, files, consumed, limits, k) == Some(rest.error)
  {
    var more := consumed + |files[0].b|;
    forall k | 0 < k < |files|
      ensures Complaint(pictures, files, consumed, limits, k) == Complaint(pictures[1..], files[1..], more, limits, k - 1)
    {
      ComplaintOfRest(pictures, files, consumed, limits, k);
    }
    assert files[0].Bytes?;
    hide Complaint, Encode;
    if rest.Success? {
      OneMoreShown(pictures, files, rest.value);
      hide AllShown;
    } else {
      var k: nat :| FirstComplaint(pictures[1..], files[1..], more, limits, k)
                    && Complaint(pictures[1..], files[1..], more, limits, k) == Some(rest.error);
      assert FirstComplaint(pictures, files, consumed, limits, k + 1);
    }
  }

  lemma OneMoreShown(pictures: seq<Picture>, files: seq<Read>, images: seq<Block>)
    requires 0 < |pictures| == |files| && files[0].Bytes? && AllShown(images, pictures[1..], files[1..])
    ensures AllShown([Image(Encode(files[0].b), pictures[0].mime)] + images, pictures, files)
  {
    hide Encode;
    var all := [Image(Encode(files[0].b), pictures[0].mime)] + images;
    forall k | 0 <= k < |files| ensures files[k].Bytes? && all[k] == Image(Encode(files[k].b), pictures[k].mime) {
      if k > 0 {
        assert files[1..][k - 1] == files[k] && pictures[1..][k - 1] == pictures[k] && all[k] == images[k - 1];
      }
    }
  }

  /** A lease is consumed exactly if no picture draws a complaint, and then gives the notes and each
      picture's bytes in order; otherwise the error is that of the first picture that draws one. */
  lemma ConsumedExactly(lease: Lease, files: seq<Read>, limits: Limits)
    requires |lease.pictures| == |files|
    ensures var r := Consumed(lease, files, limits);
            if Flawless(lease.pictures, files, 0, limits) then
              exists images :: r == Success(FileNote(lease.notePaths) + ImageNote(lease.pictures) + images)
                               && AllShown(images, lease.pictures, files)
            else exists k: nat :: FirstComplaint(lease.pictures, files, 0, limits, k)
                                  && r == Failure(Complaint(lease.pictures, files, 0, limits, k).value)
  {
    ImageBlocksExactly(lease.pictures, files, 0, limits);
    hide Complaint, FileNote, ImageNote, Encode, ImageBlocks;
    var r := ImageBlocks(lease.pictures, files, 0, limits);
    if r.Success? {
      assert AllShown(r.value, lease.pictures, files);
    }
  }

  // ---------- The wire limits ----------

  function TextChars(blocks: seq<Block>): nat {
    if blocks == [] then 0
    else (if blocks[0].Text? then |blocks[0].text| else 0) + TextChars(blocks[1..])
  }

  function ImageBytes(blocks: seq<Block>): int {
    if blocks == [] then 0
    else (if blocks[0].Image? then DecodedBase64Bytes(blocks[0].data) else 0) + ImageBytes(blocks[1..])
  }

  ghost predicate WireBlock(b: Block) {
    match b
    case Text(text) => |text| <= MAX_TEXT_CHARS
    case Image(data, mime) =>
      && 4 <= |data| <= MAX_ENCODED_CHARS
      && IsCanonicalBase64(data)
      && DecodedBase64Bytes(data) <= MAX_IMAGE_BYTES
      && HasImageSignature(data, mime)
  }

  ghost predicate WireBlocks(blocks: seq<Block>) {
    && 1 <= |blocks| <= MAX_BLOCKS
    && (forall b <- blocks :: WireBlock(b))
    && |Only(true, blocks)| <= MAX_IMAGES
    && ImageBytes(blocks) <= MAX_TOTAL_IMAGE_BYTES
    && TextChars(blocks) <= MAX_TOTAL_TEXT_CHARS
  }

  /** The refinement's loop over the three totals, for blocks that pass one by one. */
  method WithinTotals(blocks: seq<Block>) returns (ok: bool)
    requires forall b <- blocks :: WireBlock(b)
    ensures 1 <= |blocks| <= MAX_BLOCKS ==> (ok <==> WireBlocks(blocks))
  {
    hide WireBlock, DecodedBase64Bytes;
    var imageCount, totalImageBytes, totalTextChars := 0, 0, 0;
    for i := 0 to |blocks|
      invariant imageCount + |Only(true, blocks[i..])| == |Only(true, blocks)|
      invariant totalImageBytes + ImageBytes(blocks[i..]) == ImageBytes(blocks)
      invariant totalTextChars + TextChars(blocks[i..]) == TextChars(blocks)
    {
      assert blocks[i..][1..] == blocks[i + 1..];
      if blocks[i].Text? {
        totalTextChars := totalTextChars + |blocks[i].text|;
      } else {
        imageCount := imageCount + 1;
        totalImageBytes := totalImageBytes + DecodedBase64Bytes(blocks[i].data);
      }
    }
    ok := imageCount <= MAX_IMAGES && totalImageBytes <= MAX_TOTAL_IMAGE_BYTES
          && totalTextChars <= MAX_TOTAL_TEXT_CHARS;
  }

  // ---------- Everything consumed fits the wire ----------

  lemma {:induction false} OnlyConcat(images: bool, a: seq<Block>, b: seq<Block>)
    ensures Only(images, a + b) == Only(images, a) + Only(images, b)
  {
    if a == [] {
      assert a + b == b;
    } else {
      OnlyConcat(images, a[1..], b);
      assert (a + b)[1..] == a[1..] + b;
      var first := if a[0].Image? == images then [a[0]] else [];
      var l, r := Only(images, a[1..]), Only(images, b);
      assert first + (l + r) == first + l + r;
    }
  }

  lemma {:induction false} OnlyAll(images: bool, a: seq<Block>)
    requires forall b <- a :: b.Image? == images
    ensures Only(images, a) == a && Only(!images, a) == []
  {
    if a != [] {
      assert a[0] in a;
      OnlyAll(images, a[1..]);
    }
  }

  lemma {:induction false} TotalsConcat(a: seq<Block>, b: seq<Block>)
    ensures TextChars(a + b) == TextChars(a) + TextChars(b)
    ensures ImageBytes(a + b) == ImageBytes(a) + ImageBytes(b)
  {
    if a == [] {
      assert a + b == b;
    } else {
      TotalsConcat(a[1..], b);
      assert (a + b)[1..] == a[1..] + b;
    }
  }

  lemma OneMoreTime(k: nat, m: nat)
    ensures k * m + m == (k + 1) * m
  {}

  lemma {:induction false} JoinLength(parts: seq<string>, separator: string, n: nat)
    requires forall p <- parts :: |p| <= n
    ensures |Join(parts, separator)| <= |parts| * (n + |separator|)
  {
    if parts != [] {
      var m := n + |separator|;
      assert parts[0] in parts && |parts[0]| <= n;
      JoinLength(parts[1..], separator, n);
      OneMoreTime(|parts| - 1, m);
      assert |Join(parts, separator)| <= m + |Join(parts[1..], separator)|;
    }
  }

  lemma FileNoteIsShort(paths: seq<string>)
    requires |paths| <= MAX_ATTACHMENTS && forall p <- paths :: |p| <= MAX_LABEL_CHARS
    ensures forall b <- FileNote(paths) :: b.Text? && 0 < |b.text| <= 20_000
  {
    JoinLength(Dashed(paths), "\n", MAX_LABEL_CHARS + 2);
    hide Join;
    assert |paths| * (MAX_LABEL_CHARS + 2 + 1) <= 16 * (MAX_LABEL_CHARS + 2 + 1);
  }

  lemma ImageNoteIsShort(pictures: seq<Picture>)
    requires |pictures| <= MAX_ATTACHMENTS && forall p <- pictures :: |p.displayName| <= MAX_LABEL_CHARS
    ensures forall b <- ImageNote(pictures) :: b.Text? && 0 < |b.text| <= 20_000
  {
    JoinLength(Names(pictures), ", ", MAX_LABEL_CHARS);
    hide Join;
    assert |pictures| * (MAX_LABEL_CHARS + 2) <= 16 * (MAX_LABEL_CHARS + 2);
  }

  /** Both notes are short, and there is a note whenever something is attached. */
  lemma NotesAreShort(lease: Lease)
    requires StagedLease(lease)
    ensures var f, i := FileNote(lease.notePaths), ImageNote(lease.pictures);
            && |f| <= 1 && |i| <= 1 && |f + i| >= 1
            && (|i| == 1 <==> lease.pictures != [])
            && (forall b <- f + i :: b.Text? && 0 < |b.text| <= 20_000)
  {
    FileNoteIsShort(lease.notePaths);
    ImageNoteIsShort(lease.pictures);
  }

  ghost predicate PassedBroker(block: Block, file: Read, picture: Picture, limits: Limits) {
    && file.Bytes? && 0 < |file.b| <= limits.imageBytes
    && HasExpectedImageSignature(file.b, picture.mime)
    && block == Image(Encode(file.b), picture.mime)
  }

  ghost predicate AllPassed(images: seq<Block>, files: seq<Read>, pictures: seq<Picture>, limits: Limits) {
    && |images| == |files| == |pictures|
    && (images != [] ==>
          && PassedBroker(images[0], files[0], pictures[0], limits)
          && AllPassed(images[1..], files[1..], pictures[1..], limits))
  }

  lemma {:induction false} PassedAt(images: seq<Block>, files: seq<Read>, pictures: seq<Picture>, limits: Limits, k: nat)
    requires AllPassed(images, files, pictures, limits) && k < |images|
    ensures PassedBroker(images[k], files[k], pictures[k], limits)
  {
    hide PassedBroker;
    if k > 0 {
      PassedAt(images[1..], files[1..], pictures[1..], limits, k - 1);
    }
  }

  lemma PassedAreImages(images: seq<Block>, files: seq<Read>, pictures: seq<Picture>, limits: Limits)
    requires AllPassed(images, files, pictures, limits)
    ensures forall b <- images :: b.Image?
  {
    forall b | b in images ensures b.Image? {
      var k :| 0 <= k < |images| && images[k] == b;
      PassedAt(images, files, pictures, limits, k);
    }
  }

  lemma FirstImageFits(pictures: seq<Picture>, files: seq<Read>, consumed: nat, limits: Limits)
    requires 0 < |pictures| == |files|
    requires ImageBlocks(pictures, files, consumed, limits).Success?
    ensures files[0].Bytes? && consumed + |files[0].b| <= limits.totalImageBytes
    ensures var block := Image(Encode(files[0].b), pictures[0].mime);
            var rest := ImageBlocks(pictures[1..], files[1..], consumed + |files[0].b|, limits);
            && PassedBroker(block, files[0], pictures[0], limits) && rest.Success?
            && ImageBlocks(pictures, files, consumed, limits).value == [block] + rest.value
  {
    hide HasExpectedImageSignature, Encode;
  }

  /** What a run of ImageBlocks promises about its blocks. */
  lemma {:induction false} ImageBlocksFit(pictures: seq<Picture>, files: seq<Read>, consumed: nat, limits: Limits)
    requires |pictures| == |files| && consumed <= limits.totalImageBytes
    requires ImageBlocks(pictures, files, consumed, limits).Success?
    ensures var images := ImageBlocks(pictures, files, consumed, limits).value;
            && |images| == |pictures| && consumed + ImageBytes(images) <= limits.totalImageBytes
            && AllPassed(images, files, pictures, limits)
  {
    hide PassedBroker, Encode, DecodedBase64Bytes, HasExpectedImageSignature, ReadStableImage;
    if pictures != [] {
      FirstImageFits(pictures, files, consumed, limits);
      var data := files[0].b;
      ImageBlocksFit(pictures[1..], files[1..], consumed + |data|, limits);
      var block := Image(Encode(data), pictures[0].mime);
      var rest := ImageBlocks(pictures[1..], files[1..], consumed + |data|, limits).value;
      hide ImageBlocks;
      BrokerBlockBytes(block, files[0], pictures[0], limits);
      assert ([block] + rest)[1..] == rest;
    }
  }

  lemma BrokerBlockBytes(block: Block, file: Read, picture: Picture, limits: Limits)
    requires PassedBroker(block, file, picture, limits)
    ensures block.Image? && DecodedBase64Bytes(block.data) == |file.b|
  {
    LengthFormula(file.b);
  }

  lemma EncodedImageFits(data: seq<byte>, mime: Mime)
    requires 0 < |data| <= MAX_IMAGE_BYTES && HasExpectedImageSignature(data, mime)
    ensures WireBlock(Image(Encode(data), mime)) <==> SevenBitSignature(data, mime)
  {
    SignatureChecksAgree(data, mime);
    CanonicalIffEncoding(Encode(data));
    LengthFormula(data);
    hide HasExpectedImageSignature, SevenBitSignature, HasImageSignature, IsCanonicalBase64, DecodedBase64Bytes;
    assert 1 <= Groups(|data|) <= Groups(MAX_IMAGE_BYTES);
  }

  lemma PassedFits(block: Block, file: Read, picture: Picture, limits: Limits)
    requires PassedBroker(block, file, picture, limits) && LoweredLimits(limits)
    ensures file.Bytes? && (WireBlock(block) <==> SevenBitSignature(file.b, picture.mime))
  {
    EncodedImageFits(file.b, picture.mime);
  }

  lemma OnlyOf(texts: seq<Block>, images: seq<Block>)
    requires (forall b <- texts :: b.Text?) && (forall b <- images :: b.Image?)
    ensures Only(false, texts + images) == texts && Only(true, texts + images) == images
  {
    OnlyConcat(false, texts, images);
    OnlyConcat(true, texts, images);
    OnlyAll(false, texts);
    OnlyAll(true, images);
  }

  lemma FirstTextShows(texts: seq<Block>)
    requires texts != [] && (forall b <- texts :: b.Text? && b.text != "")
    ensures Join(Texts(texts), "\n\n") != ""
  {
    assert Texts(texts)[0] == texts[0].text;
  }

  /** File note, user text, image note, images: the order the composition promises. */
  lemma ComposedOrder(fileNote: seq<Block>, imageNote: seq<Block>, images: seq<Block>, userText: string)
    requires |fileNote| <= 1 && |imageNote| <= 1 && |fileNote + imageNote| >= 1
    requires |imageNote| == 1 <==> images != []
    requires forall b <- fileNote + imageNote :: b.Text? && b.text != ""
    requires forall b <- images :: b.Image?
    ensures var r := ComposeAttachmentPrompt(userText, fileNote + imageNote + images);
            var texts := fileNote + UserText(userText) + imageNote;
            && r == Success(Prompt(texts + images, Join(Texts(texts), "\n\n")))
            && (forall b <- texts :: b.Text? && b.text != "")
  {
    hide Join, Texts, Only;
    var notes := fileNote + imageNote;
    OnlyOf(notes, images);
    var texts := fileNote + UserText(userText) + imageNote;
    forall b | b in texts ensures b.Text? && b.text != "" {
      assert b in notes || b in UserText(userText);
    }
    OnlyOf(texts, images);
    FirstTextShows(texts);
    if images != [] {
      assert notes[..|notes| - 1] == fileNote && notes[|notes| - 1..] == imageNote;
    } else {
      assert imageNote == [] && notes == fileNote;
    }
  }

  lemma {:induction false} TextsOnly(texts: seq<Block>, n: nat)
    requires forall b <- texts :: b.Text? && |b.text| <= n
    ensures ImageBytes(texts) == 0 && TextChars(texts) <= |texts| * n
  {
    if texts != [] {
      assert texts[0] in texts;
      TextsOnly(texts[1..], n);
      assert |texts[1..]| * n + n == |texts| * n;
    }
  }

  lemma {:induction false} ImagesOnly(images: seq<Block>)
    requires forall b <- images :: b.Image?
    ensures TextChars(images) == 0
  {
    if images != [] {
      assert images[0] in images;
      ImagesOnly(images[1..]);
    }
  }

  lemma PromptTotals(notes: seq<Block>, user: seq<Block>, note: seq<Block>, images: seq<Block>)
    requires |notes| <= 1 && |note| <= 1 && |user| <= 1
    requires forall b <- notes + note :: b.Text? && |b.text| <= 20_000
    requires forall b <- user :: b.Text? && |b.text| <= MAX_TEXT_CHARS
    requires forall b <- images :: b.Image?
    ensures var blocks := notes + user + note + images;
            ImageBytes(blocks) == ImageBytes(images) && TextChars(blocks) <= MAX_TOTAL_TEXT_CHARS
  {
    forall b | b in notes || b in note ensures b.Text? && |b.text| <= 20_000 {
      assert b in notes + note;
    }
    TextsOnly(notes, 20_000);
    TextsOnly(user, MAX_TEXT_CHARS);
    TextsOnly(note, 20_000);
    ImagesOnly(images);
    TotalsConcat(notes + user + note, images);
    TotalsConcat(notes + user, note);
    TotalsConcat(notes, user);
  }

  lemma TextBlocksPass(texts: seq<Block>, images: seq<Block>)
    requires forall b <- texts :: b.Text? && |b.text| <= MAX_TEXT_CHARS
    ensures (forall b <- texts + images :: WireBlock(b)) <==> (forall k :: 0 <= k < |images| ==> WireBlock(images[k]))
  {
    var blocks := texts + images;
    assert forall k :: 0 <= k < |images| ==> blocks[|texts| + k] == images[k];
    forall b | b in texts ensures WireBlock(b) {}
    hide WireBlock;
  }

  /** A consumed lease and a user text within the input limit always compose, and the prompt
      meets every wire limit exactly when no text signature needed its high bits cleared. */
  lemma ConsumedPromptFitsWire(lease: Lease, files: seq<Read>, limits: Limits, userText: string)
    requires StagedLease(lease) && LoweredLimits(limits) && |userText| <= MAX_TEXT_CHARS
    requires |lease.pictures| == |files| && Consumed(lease, files, limits).Success?
    ensures var r := ComposeAttachmentPrompt(userText, Consumed(lease, files, limits).value);
            && r.Success?
            && (WireBlocks(r.value.blocks) <==>
                forall k :: 0 <= k < |files| ==>
                  files[k].Bytes? && SevenBitSignature(files[k].b, lease.pictures[k].mime))
  {
    hide SevenBitSignature, HasExpectedImageSignature, Encode, DecodedBase64Bytes, ImageBlocks,
         PassedBroker, WireBlock, FileNote, ImageNote, ComposeAttachmentPrompt, Only, TextChars, ImageBytes;
    var images := ImageBlocks(lease.pictures, files, 0, limits).value;
    var f, i, user := FileNote(lease.notePaths), ImageNote(lease.pictures), UserText(userText);
    ImageBlocksFit(lease.pictures, files, 0, limits);
    PassedAreImages(images, files, lease.pictures, limits);
    NotesAreShort(lease);
    ComposedOrder(f, i, images, userText);
    PromptTotals(f, user, i, images);
    OnlyOf(f + user + i, images);
    forall k | 0 <= k < |files|
      ensures files[k].Bytes?
      ensures WireBlock(images[k]) <==> SevenBitSignature(files[k].b, lease.pictures[k].mime)
    {
      PassedAt(images, files, lease.pictures, limits, k);
      PassedFits(images[k], files[k], lease.pictures[k], limits);
    }
    TextBlocksPass(f + user + i, images);
  }
}
