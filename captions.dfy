/** Caption templating of `weekly_post_generator.py`: the four post texts
    are f-strings over the track fields, the rendered tags and the Linktree
    link.  Each f-string is kept as a sequence of literal pieces and
    replacement fields, so that rendering it is concatenation. */
module Captions {
  import opened Text
  import opened Hashtags

  /** The form fields of one track; the two URLs are optional (empty when absent). */
  datatype Track = Track(
    title: string,
    sampleArtist: string,
    sampleTitle: string,
    sampleYear: string,
    youtubeUrl: string,
    soundcloudUrl: string)

  const Linktree: string := "https://linktr.ee/wantumeni"

  /** What `url or '[URL]'` shows for a missing URL. */
  const UrlPlaceholder: string := "[URL]"

  /** The replacement fields that occur in the templates. */
  datatype Field =
    | TrackTitle | SampleArtist | SampleTitle | SampleYear
    | YouTubeUrl | SoundCloudUrl | Tags | LinktreeLink

  /** One part of an f-string: literal text or a replacement field. */
  datatype Piece = Lit(text: string) | Hole(field: Field)

  /** Python's `value or fallback` on strings: the empty string is false. */
  function OrElse(value: string, fallback: string): (r: string)
    ensures r == value || r == fallback
    ensures r == fallback <==> value == "" || value == fallback
  {
    if value != "" then value else fallback
  }

  /** The text a replacement field stands for. */
  function FieldValue(f: Field, track: Track, tags: string): string
  {
    match f
    case TrackTitle => track.title
    case SampleArtist => track.sampleArtist
    case SampleTitle => track.sampleTitle
    case SampleYear => track.sampleYear
    case YouTubeUrl => OrElse(track.youtubeUrl, UrlPlaceholder)
    case SoundCloudUrl => OrElse(track.soundcloudUrl, UrlPlaceholder)
    case Tags => tags
    case LinktreeLink => Linktree
  }

  /** The text of one piece. */
  function PieceText(p: Piece, track: Track, tags: string): string
  {
    match p
    case Lit(text) => text
    case Hole(f) => FieldValue(f, track, tags)
  }

  /** Evaluating an f-string: the pieces' texts, concatenated in order. */
  function Render(template: seq<Piece>, track: Track, tags: string): string
  {
    if template == [] then ""
    else PieceText(template[0], track, tags) + Render(template[1..], track, tags)
  }

  lemma RenderCons(p: Piece, rest: seq<Piece>, track: Track, tags: string)
    ensures Render([p] + rest, track, tags) == PieceText(p, track, tags) + Render(rest, track, tags)
  {
    assert ([p] + rest)[1..] == rest;
  }

  lemma {:induction false} RenderConcat(a: seq<Piece>, b: seq<Piece>, track: Track, tags: string)
    ensures Render(a + b, track, tags) == Render(a, track, tags) + Render(b, track, tags)
  {
    if a == [] {
      assert a + b == b;
    } else {
      assert (a + b)[1..] == a[1..] + b;
      RenderConcat(a[1..], b, track, tags);
    }
  }

  /** Every run of consecutive pieces shows up, rendered, in the whole text. */
  lemma RenderShowsRun(template: seq<Piece>, i: nat, j: nat, track: Track, tags: string)
    requires i <= j <= |template|
    ensures Contains(Render(template, track, tags), Render(template[i..j], track, tags))
  {
    var pre, run, post := template[..i], template[i..j], template[j..];
    assert template == (pre + run) + post;
    RenderConcat(pre + run, post, track, tags);
    RenderConcat(pre, run, track, tags);
    var a, b, c := Render(pre, track, tags), Render(run, track, tags), Render(post, track, tags);
    assert Render(template, track, tags) == a + b + c;
    ContainsConcat(a, b, c);
  }

  /** A field the template uses appears, as its value, in the rendered text. */
  lemma RenderShowsField(template: seq<Piece>, f: Field, track: Track, tags: string)
    requires Hole(f) in template
    ensures Contains(Render(template, track, tags), FieldValue(f, track, tags))
  {
    var k :| 0 <= k < |template| && template[k] == Hole(f);
    RenderShowsRun(template, k, k + 1, track, tags);
    var v := FieldValue(f, track, tags);
    assert template[k..k + 1] == [Hole(f)] + [];
    RenderCons(Hole(f), [], track, tags);
    assert Render([], track, tags) == "";
    assert v + "" == v;
    assert Render(template[k..k + 1], track, tags) == v;
  }

  /** The rendered text depends only on the fields the template uses. */
  lemma {:induction false} RenderUsesOnlyItsFields(template: seq<Piece>, t1: Track, t2: Track, tags: string)
    requires forall f :: Hole(f) in template ==> FieldValue(f, t1, tags) == FieldValue(f, t2, tags)
    ensures Render(template, t1, tags) == Render(template, t2, tags)
  {
    if template != [] {
      assert forall f :: Hole(f) in template[1..] ==> Hole(f) in template;
      RenderUsesOnlyItsFields(template[1..], t1, t2, tags);
    }
  }

  // ---------------------------------------------------------------------
  // The four templates

  /** Sunday, for Meta, TikTok and Shorts. */
  const SundayMetaTemplate: seq<Piece> := [
    Lit("\n🎧 Boom Bap Hip Hop Instrumental – “"),
    Hole(TrackTitle),
    Lit("” by wantumeni  \n[unmastered demo]\n\nSample:  \n"),
    Hole(SampleArtist),
    Lit(" – "),
    Hole(SampleTitle),
    Lit(" ("),
    Hole(SampleYear),
    Lit(")\n\n🔁 Weekly drops – Every Sunday  \n🎹 "),
    Hole(Tags),
    Lit("  \n📀 M.I.L.E. Music  \n\n👉 Stream now via Linktree  \n🔗 "),
    Hole(LinktreeLink),
    Lit("\n")
  ]

  /** Sunday, for the YouTube description. */
  const SundayYouTubeTemplate: seq<Piece> := [
    Lit("\n🎧 wantumeni – “"),
    Hole(TrackTitle),
    Lit("” | Boom Bap Hip Hop Instrumental  \n[unmastered demo]\n\nSample:  \n"),
    Hole(SampleArtist),
    Lit(" – "),
    Hole(SampleTitle),
    Lit(" ("),
    Hole(SampleYear),
    Lit(")\n\n🔁 Weekly beat drops – Sundays  \n🎹 Raw boom bap / soulful samples / gritty drums  \n📀 M.I.L.E. Music  \n\n🔊 Stream & download:  \nLinktree: "),
    Hole(LinktreeLink),
    Lit("  \nInstagram: https://instagram.com/wantumeni.x  \nSoundcloud: https://soundcloud.com/wantumeni  \nTikTok: https://tiktok.com/@wantumeni\n\n"),
    Hole(Tags),
    Lit("\n")
  ]

  /** Wednesday, for Meta and TikTok. */
  const WednesdayMetaTemplate: seq<Piece> := [
    Lit("\n🎧 Missed it? “"),
    Hole(TrackTitle),
    Lit("” by wantumeni just dropped  \n[unmastered demo] – Boom Bap Instrumental  \n\nSampled from:  \n"),
    Hole(SampleArtist),
    Lit(" – "),
    Hole(SampleTitle),
    Lit(" ("),
    Hole(SampleYear),
    Lit(")\n\nNow streaming on Soundcloud & YouTube  \n🔗 "),
    Hole(LinktreeLink),
    Lit("  \n\n🔁 Weekly beat drops  \n🎹 "),
    Hole(Tags),
    Lit("  \n📀 M.I.L.E. Music\n")
  ]

  /** Wednesday, for the YouTube description: the only one with the URLs. */
  const WednesdayYouTubeTemplate: seq<Piece> := [
    Lit("\n🎧 New drop: “"),
    Hole(TrackTitle),
    Lit("” by wantumeni [unmastered demo]  \nBoom Bap Hip Hop Instrumental  \n\nSampled from:  \n"),
    Hole(SampleArtist),
    Lit(" – "),
    Hole(SampleTitle),
    Lit(" ("),
    Hole(SampleYear),
    Lit(")\n\nNow available:  \n"),
    Lit("🔗 YouTube: "),
    Hole(YouTubeUrl),
    Lit("  \n🔗 Soundcloud: "),
    Hole(SoundCloudUrl),
    Lit("  \n"),
    Lit("🔗 All links: "),
    Hole(LinktreeLink),
    Lit("  \n\n🔁 Weekly beat drops  \n🎹 Jazzy loops / gritty drums / classic vibe  \n📀 M.I.L.E. Music  \n\n"),
    Hole(Tags),
    Lit("\n")
  ]

  /** The fields every template shows: the track title, the sample artist,
      title and year, the tags and the Linktree link. */
  predicate ShowsTrack(caption: string, track: Track, tags: string) {
    && Contains(caption, track.title)
    && Contains(caption, track.sampleArtist)
    && Contains(caption, track.sampleTitle)
    && Contains(caption, track.sampleYear)
    && Contains(caption, tags)
    && Contains(caption, Linktree)
  }

  lemma TemplateShowsTrack(template: seq<Piece>, track: Track, tags: string)
    requires Hole(TrackTitle) in template && Hole(SampleArtist) in template
    requires Hole(SampleTitle) in template && Hole(SampleYear) in template
    requires Hole(Tags) in template && Hole(LinktreeLink) in template
    ensures ShowsTrack(Render(template, track, tags), track, tags)
  {
    RenderShowsField(template, TrackTitle, track, tags);
    RenderShowsField(template, SampleArtist, track, tags);
    RenderShowsField(template, SampleTitle, track, tags);
    RenderShowsField(template, SampleYear, track, tags);
    RenderShowsField(template, Tags, track, tags);
    RenderShowsField(template, LinktreeLink, track, tags);
  }

  function SundayMeta(track: Track, tags: string): (r: string)
    ensures ShowsTrack(r, track, tags)
  {
    assert SundayMetaTemplate[1] == Hole(TrackTitle) && SundayMetaTemplate[3] == Hole(SampleArtist);
    assert SundayMetaTemplate[5] == Hole(SampleTitle) && SundayMetaTemplate[7] == Hole(SampleYear);
    assert SundayMetaTemplate[9] == Hole(Tags) && SundayMetaTemplate[11] == Hole(LinktreeLink);
    TemplateShowsTrack(SundayMetaTemplate, track, tags);
    Render(SundayMetaTemplate, track, tags)
  }

  function SundayYouTube(track: Track, tags: string): (r: string)
    ensures ShowsTrack(r, track, tags)
  {
    assert SundayYouTubeTemplate[1] == Hole(TrackTitle) && SundayYouTubeTemplate[3] == Hole(SampleArtist);
    assert SundayYouTubeTemplate[5] == Hole(SampleTitle) && SundayYouTubeTemplate[7] == Hole(SampleYear);
    assert SundayYouTubeTemplate[11] == Hole(Tags) && SundayYouTubeTemplate[9] == Hole(LinktreeLink);
    TemplateShowsTrack(SundayYouTubeTemplate, track, tags);
    Render(SundayYouTubeTemplate, track, tags)
  }

  function WednesdayMeta(track: Track, tags: string): (r: string)
    ensures ShowsTrack(r, track, tags)
  {
    assert WednesdayMetaTemplate[1] == Hole(TrackTitle) && WednesdayMetaTemplate[3] == Hole(SampleArtist);
    assert WednesdayMetaTemplate[5] == Hole(SampleTitle) && WednesdayMetaTemplate[7] == Hole(SampleYear);
    assert WednesdayMetaTemplate[11] == Hole(Tags) && WednesdayMetaTemplate[9] == Hole(LinktreeLink);
    TemplateShowsTrack(WednesdayMetaTemplate, track, tags);
    Render(WednesdayMetaTemplate, track, tags)
  }

  /** The URL lines of the Wednesday YouTube caption. */
  function UrlBlock(track: Track): string {
    "🔗 YouTube: " + OrElse(track.youtubeUrl, UrlPlaceholder)
      + "  \n🔗 Soundcloud: " + OrElse(track.soundcloudUrl, UrlPlaceholder) + "  \n"
  }

  /** Besides the track, shows each URL verbatim when it is given and the
      placeholder `[URL]` when it is empty. */
  function WednesdayYouTube(track: Track, tags: string): (r: string)
    ensures ShowsTrack(r, track, tags)
    ensures Contains(r, UrlBlock(track))
  {
    WednesdayYouTubeShowsTrack(track, tags);
    WednesdayYouTubeShowsUrls(track, tags);
    Render(WednesdayYouTubeTemplate, track, tags)
  }

  lemma WednesdayYouTubeShowsTrack(track: Track, tags: string)
    ensures ShowsTrack(Render(WednesdayYouTubeTemplate, track, tags), track, tags)
  {
    var t := WednesdayYouTubeTemplate;
    assert t[1] == Hole(TrackTitle) && t[3] == Hole(SampleArtist);
    assert t[5] == Hole(SampleTitle) && t[7] == Hole(SampleYear);
    assert t[17] == Hole(Tags) && t[15] == Hole(LinktreeLink);
    TemplateShowsTrack(t, track, tags);
  }

  lemma WednesdayYouTubeShowsUrls(track: Track, tags: string)
    ensures Contains(Render(WednesdayYouTubeTemplate, track, tags), UrlBlock(track))
  {
    var t := WednesdayYouTubeTemplate;
    RenderShowsRun(t, 9, 14, track, tags);
    UrlLines(t[9..14], track, tags);
  }

  lemma UrlLines(run: seq<Piece>, track: Track, tags: string)
    requires run == [Lit("🔗 YouTube: "), Hole(YouTubeUrl), Lit("  \n🔗 Soundcloud: "), Hole(SoundCloudUrl), Lit("  \n")]
    ensures Render(run, track, tags) == UrlBlock(track)
  {
    var r4 := [run[4]] + [];
    var r3 := [run[3]] + r4;
    var r2 := [run[2]] + r3;
    var r1 := [run[1]] + r2;
    assert run == [run[0]] + r1;
    RenderCons(run[4], [], track, tags);
    RenderCons(run[3], r4, track, tags);
    RenderCons(run[2], r3, track, tags);
    RenderCons(run[1], r2, track, tags);
    RenderCons(run[0], r1, track, tags);
  }

  /** Two tracks that differ at most in their URLs. */
  predicate SameButUrls(t1: Track, t2: Track) {
    t1.title == t2.title && t1.sampleArtist == t2.sampleArtist
    && t1.sampleTitle == t2.sampleTitle && t1.sampleYear == t2.sampleYear
  }

  /** A template without the URL fields. */
  predicate WithoutUrls(template: seq<Piece>) {
    forall k :: 0 <= k < |template| ==> template[k] != Hole(YouTubeUrl) && template[k] != Hole(SoundCloudUrl)
  }

  lemma WithoutUrlsIgnoresUrls(template: seq<Piece>, t1: Track, t2: Track, tags: string)
    requires WithoutUrls(template) && SameButUrls(t1, t2)
    ensures Render(template, t1, tags) == Render(template, t2, tags)
  {
    forall f | Hole(f) in template
      ensures FieldValue(f, t1, tags) == FieldValue(f, t2, tags)
    {
      assert f != YouTubeUrl && f != SoundCloudUrl;
    }
    RenderUsesOnlyItsFields(template, t1, t2, tags);
  }

  /** Only the Wednesday YouTube template reads the URL fields. */
  lemma OtherTemplatesIgnoreUrls(t1: Track, t2: Track, tags: string)
    requires SameButUrls(t1, t2)
    ensures SundayMeta(t1, tags) == SundayMeta(t2, tags)
    ensures SundayYouTube(t1, tags) == SundayYouTube(t2, tags)
    ensures WednesdayMeta(t1, tags) == WednesdayMeta(t2, tags)
  {
    SundayTemplatesWithoutUrls();
    WednesdayMetaWithoutUrls();
    WithoutUrlsIgnoresUrls(SundayMetaTemplate, t1, t2, tags);
    WithoutUrlsIgnoresUrls(SundayYouTubeTemplate, t1, t2, tags);
    WithoutUrlsIgnoresUrls(WednesdayMetaTemplate, t1, t2, tags);
  }

  lemma SundayTemplatesWithoutUrls()
    ensures WithoutUrls(SundayMetaTemplate) && WithoutUrls(SundayYouTubeTemplate)
  {
  }

  lemma WednesdayMetaWithoutUrls()
    ensures WithoutUrls(WednesdayMetaTemplate)
  {
  }

  // ---------------------------------------------------------------------
  // The whole generation step

  /** The four captions and the copy/paste tag block. */
  datatype Posts = Posts(
    sundayMeta: string,
    sundayYouTube: string,
    wednesdayMeta: string,
    wednesdayYouTube: string,
    allTags: string)

  /** What the `{display_tags}` field prints: the string itself, or for the
      list of the "Without #" mode, the list's printed form, which
      `listRepr` stands for. */
  function TagField(d: DisplayTags, listRepr: seq<string> -> string): (r: string)
    ensures d.TagText? ==> r == CopyPaste(d)
  {
    match d
    case TagText(text) => text
    case TagList(l) => listRepr(l)
  }

  /** One press of "Generate Posts" with the given widget values: every
      caption shows the track and the tag field, the Wednesday YouTube caption
      also shows the URL lines, and except in the "Without #" mode the tag
      field is exactly the copy/paste block. */
  function Compose(track: Track, rotating: seq<string>, trendy: seq<string>, option: string,
                   listRepr: seq<string> -> string): (r: Posts)
    ensures var tags := TagField(Display(option, FinalTags(rotating, trendy, track.sampleTitle, track.sampleArtist)), listRepr);
      && ShowsTrack(r.sundayMeta, track, tags)
      && ShowsTrack(r.sundayYouTube, track, tags)
      && ShowsTrack(r.wednesdayMeta, track, tags)
      && ShowsTrack(r.wednesdayYouTube, track, tags)
      && Contains(r.wednesdayYouTube, UrlBlock(track))
      && (option != WithoutHash ==> tags == r.allTags)
  {
    var display := Display(option, FinalTags(rotating, trendy, track.sampleTitle, track.sampleArtist));
    var tags := TagField(display, listRepr);
    Posts(SundayMeta(track, tags), SundayYouTube(track, tags), WednesdayMeta(track, tags),
          WednesdayYouTube(track, tags), CopyPaste(display))
  }

  /** Changing only the URLs changes only the Wednesday YouTube caption. */
  lemma ComposeUrlsOnlyInWednesdayYouTube(t1: Track, t2: Track, rotating: seq<string>, trendy: seq<string>,
                                         option: string, listRepr: seq<string> -> string)
    requires SameButUrls(t1, t2)
    ensures var p1 := Compose(t1, rotating, trendy, option, listRepr);
      var p2 := Compose(t2, rotating, trendy, option, listRepr);
      p1.sundayMeta == p2.sundayMeta && p1.sundayYouTube == p2.sundayYouTube
      && p1.wednesdayMeta == p2.wednesdayMeta && p1.allTags == p2.allTags
  {
    var display := Display(option, FinalTags(rotating, trendy, t1.sampleTitle, t1.sampleArtist));
    OtherTemplatesIgnoreUrls(t1, t2, TagField(display, listRepr));
  }

  /** With `#`: the copy/paste block is the final tags joined by a space,
      and splits back into them when no tag contains a space. */
  lemma ComposeWithHashTags(track: Track, rotating: seq<string>, trendy: seq<string>, option: string,
                            listRepr: seq<string> -> string)
    requires option != WithoutHash && option != CommaSeparated
    ensures var tags := FinalTags(rotating, trendy, track.sampleTitle, track.sampleArtist);
      var p := Compose(track, rotating, trendy, option, listRepr);
      p.allTags == Join(tags, " ")
      && ((forall k :: 0 <= k < |tags| ==> ' ' !in tags[k]) ==> Split(p.allTags, " ") == tags)
  {
    var tags := FinalTags(rotating, trendy, track.sampleTitle, track.sampleArtist);
    DisplayWithHash(option, tags);
  }

  /** Without `#` or comma-separated: no `#` in the copy/paste block. */
  lemma ComposeHashFreeTags(track: Track, rotating: seq<string>, trendy: seq<string>, option: string,
                            listRepr: seq<string> -> string)
    requires option == WithoutHash || option == CommaSeparated
    ensures '#' !in Compose(track, rotating, trendy, option, listRepr).allTags
  {
    var tags := FinalTags(rotating, trendy, track.sampleTitle, track.sampleArtist);
    CopyPasteHashFree(option, tags);
  }
}
