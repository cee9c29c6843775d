/**
 * The message segments of an inbound QQ event, and how `coze_callback` turns
 * them into one user message: text segments joined in order, image and audio
 * URLs appended as labelled blocks, and a note of whether the bot was mentioned.
 */
module Inbound {
  import opened Text
  import opened JsonValue

  /**
   * One entry of the event's `message` list, by its `type`. `qq` is the mention's
   * `data.qq` as decoded (`JNull` when absent); a URL or text that is absent is `""`.
   */
  datatype Segment =
    | At(qq: Json)
    | TextSeg(text: string)
    | ImageSeg(url: string)
    | AudioSeg(url: string)
    | OtherSeg

  const ImageHeading: string := "\n\n图片URL：\n"
  const AudioHeading: string := "\n\n语音URL：\n"

  /** The text a segment contributes: its text for a text segment, nothing otherwise. */
  function TextPiece(seg: Segment): string
  {
    if seg.TextSeg? then seg.text else ""
  }

  /** The text segments' texts, joined in order. */
  function TextOf(segs: seq<Segment>): string
  {
    if segs == [] then "" else TextOf(segs[..|segs| - 1]) + TextPiece(segs[|segs| - 1])
  }

  /** The non-empty image URLs, in order. */
  function ImagesOf(segs: seq<Segment>): seq<string>
  {
    if segs == [] then []
    else
      var last := segs[|segs| - 1];
      ImagesOf(segs[..|segs| - 1]) + (if last.ImageSeg? && last.url != "" then [last.url] else [])
  }

  /** The non-empty audio URLs, in order. */
  function AudiosOf(segs: seq<Segment>): seq<string>
  {
    if segs == [] then []
    else
      var last := segs[|segs| - 1];
      AudiosOf(segs[..|segs| - 1]) + (if last.AudioSeg? && last.url != "" then [last.url] else [])
  }

  /**
   * Some mention's `qq` equals the configured bot account, with Python's `==`:
   * `botQq` is `JString` of `BOT_QQ`, or `JNull` when it is not configured.
   */
  predicate MentionsBot(segs: seq<Segment>, botQq: Json)
  {
    exists i :: 0 <= i < |segs| && segs[i].At? && segs[i].qq == botQq
  }

  /** A labelled block listing URLs one per line, or nothing when there are none. */
  function Block(heading: string, urls: seq<string>): string
  {
    if urls == [] then "" else heading + Join(urls, "\n")
  }

  /** The user message the backend is asked: the text, then the image block, then the audio block. */
  function UserMessage(segs: seq<Segment>): string
  {
    TextOf(segs) + Block(ImageHeading, ImagesOf(segs)) + Block(AudioHeading, AudiosOf(segs))
  }

  /** Text from consecutive runs of segments is the two runs' text, in order. */
  lemma {:induction false} TextOfAppend(a: seq<Segment>, b: seq<Segment>)
    ensures TextOf(a + b) == TextOf(a) + TextOf(b)
    decreases |b|
  {
    if b == [] {
      assert a + b == a;
    } else {
      var init := b[..|b| - 1];
      TextOfAppend(a, init);
      assert (a + b)[..|a + b| - 1] == a + init;
      assert (a + b)[|a + b| - 1] == b[|b| - 1];
    }
  }

  /** Image URLs from consecutive runs of segments are the two runs' URLs, in order. */
  lemma {:induction false} ImagesOfAppend(a: seq<Segment>, b: seq<Segment>)
    ensures ImagesOf(a + b) == ImagesOf(a) + ImagesOf(b)
    decreases |b|
  {
    if b == [] {
      assert a + b == a;
    } else {
      var init := b[..|b| - 1];
      ImagesOfAppend(a, init);
      assert (a + b)[..|a + b| - 1] == a + init;
      assert (a + b)[|a + b| - 1] == b[|b| - 1];
    }
  }

  /** Audio URLs from consecutive runs of segments are the two runs' URLs, in order. */
  lemma {:induction false} AudiosOfAppend(a: seq<Segment>, b: seq<Segment>)
    ensures AudiosOf(a + b) == AudiosOf(a) + AudiosOf(b)
    decreases |b|
  {
    if b == [] {
      assert a + b == a;
    } else {
      var init := b[..|b| - 1];
      AudiosOfAppend(a, init);
      assert (a + b)[..|a + b| - 1] == a + init;
      assert (a + b)[|a + b| - 1] == b[|b| - 1];
    }
  }

  /** Every listed image URL is the non-empty URL of an image segment. */
  lemma {:induction false} ImagesFromImageSegments(segs: seq<Segment>, k: nat)
    requires k < |ImagesOf(segs)|
    ensures ImagesOf(segs)[k] != "" && exists i :: 0 <= i < |segs| && segs[i] == ImageSeg(ImagesOf(segs)[k])
    decreases |segs|
  {
    var init := segs[..|segs| - 1];
    var last := segs[|segs| - 1];
    if k < |ImagesOf(init)| {
      ImagesFromImageSegments(init, k);
      var i :| 0 <= i < |init| && init[i] == ImageSeg(ImagesOf(init)[k]);
      assert segs[i] == init[i];
    } else {
      assert segs[|segs| - 1] == ImageSeg(ImagesOf(segs)[k]);
    }
  }

  /** A string with a non-space character somewhere in its middle part is not blank. */
  lemma {:induction false} NotBlankAround(t: string, block: string, rest: string, k: nat)
    requires k < |block| && !IsSpace(block[k])
    ensures !Blank(t + block + rest)
  {
    assert (t + block + rest)[|t| + k] == block[k];
  }

  /**
   * The message is blank exactly when its text is blank and it has no image or
   * audio URL: a message with an attachment is never skipped as empty.
   */
  lemma {:induction false} BlankMessage(segs: seq<Segment>)
    ensures Blank(UserMessage(segs)) <==> Blank(TextOf(segs)) && ImagesOf(segs) == [] && AudiosOf(segs) == []
  {
    var t := TextOf(segs);
    var images := Block(ImageHeading, ImagesOf(segs));
    var audios := Block(AudioHeading, AudiosOf(segs));
    if ImagesOf(segs) != [] {
      assert images[2] == '图';
      NotBlankAround(t, images, audios, 2);
    } else if AudiosOf(segs) != [] {
      assert audios[2] == '语';
      assert t + images + audios == t + audios + "";
      NotBlankAround(t, audios, "", 2);
    } else {
      assert UserMessage(segs) == t;
    }
  }

  /** One more segment mentions the bot exactly when it is a mention of the bot or an earlier one was. */
  lemma {:induction false} MentionsBotExtend(segs: seq<Segment>, i: nat, botQq: Json)
    requires i < |segs|
    ensures MentionsBot(segs[..i + 1], botQq) <==>
      MentionsBot(segs[..i], botQq) || (segs[i].At? && segs[i].qq == botQq)
  {
    var pre := segs[..i + 1];
    assert forall j :: 0 <= j < i ==> pre[j] == segs[..i][j];
    if MentionsBot(pre, botQq) {
      var j :| 0 <= j < |pre| && pre[j].At? && pre[j].qq == botQq;
      if j < i {
        assert segs[..i][j] == pre[j];
      }
    }
  }

  /**
   * The segment loop of `coze_callback`: concatenates text, collects non-empty
   * image and audio URLs, notes a mention of the bot, then appends the URL blocks.
   */
  method Normalize(segs: seq<Segment>, botQq: Json) returns (message: string, atMe: bool)
    ensures message == UserMessage(segs)
    ensures atMe <==> MentionsBot(segs, botQq)
  {
    message := "";
    var images: seq<string> := [];
    var audios: seq<string> := [];
    atMe := false;
    var i := 0;
    while i < |segs|
      invariant 0 <= i <= |segs|
      invariant message == TextOf(segs[..i])
      invariant images == ImagesOf(segs[..i])
      invariant audios == AudiosOf(segs[..i])
      invariant atMe <==> MentionsBot(segs[..i], botQq)
    {
      var seg := segs[i];
      ghost var pre := segs[..i + 1];
      assert pre[..i] == segs[..i] && pre[i] == seg;
      assert TextOf(pre) == message + TextPiece(seg);
      assert ImagesOf(pre) == images + (if seg.ImageSeg? && seg.url != "" then [seg.url] else []);
      assert AudiosOf(pre) == audios + (if seg.AudioSeg? && seg.url != "" then [seg.url] else []);
      MentionsBotExtend(segs, i, botQq);
      if seg.At? {
        if seg.qq == botQq {
          atMe := true;
        }
      } else if seg.TextSeg? {
        message := message + seg.text;
      } else if seg.ImageSeg? {
        if seg.url != "" {
          images := images + [seg.url];
        }
      } else if seg.AudioSeg? {
        if seg.url != "" {
          audios := audios + [seg.url];
        }
      }
      i := i + 1;
    }
    assert segs[..i] == segs;
    message := message + Block(ImageHeading, images) + Block(AudioHeading, audios);
  }
}
