/** The video service (video_understanding/video_understanding.py): the
    YouTube link check and video-id extraction, the checks on an uploaded
    video, and the choice of question and content in `generate`. The model
    call itself is left out; `generate` answers with what it would send. */
module VideoUnderstanding {
  import opened Wrappers
  import opened Strings
  import opened UploadPaths

  // ---------------------------------------------------------------------
  // YOUTUBE_REGEX

  const Https := "https://"
  const Http := "http://"
  const Www := "www."
  const WatchHost := "youtube.com/watch?v="
  const EmbedHost := "youtube.com/embed/"
  const VHost := "youtube.com/v/"
  const ShortHost := "youtu.be/"
  const Schemes := [Https, Http, ""]
  const Wwws := [Www, ""]
  const Hosts := [WatchHost, EmbedHost, VHost, ShortHost]
  const IdLength := 11

  /** `[a-zA-Z0-9_-]`. */
  predicate IdChar(c: char) {
    ('a' <= c <= 'z') || ('A' <= c <= 'Z') || ('0' <= c <= '9') || c == '_' || c == '-'
  }

  /** `([a-zA-Z0-9_-]{11})`. */
  predicate IsVideoId(s: string) {
    |s| == IdLength && forall i :: 0 <= i < |s| ==> IdChar(s[i])
  }

  predicate NoSpace(s: string) {
    forall i :: 0 <= i < |s| ==> !IsSpace(s[i])
  }

  /** `(?:\S+)?$`: a run of non-space characters; Python's `$` also lets a
      single final newline through. */
  predicate TailOk(t: string) {
    NoSpace(t) || (|t| > 0 && t[|t| - 1] == '\n' && NoSpace(t[..|t| - 1]))
  }

  /** One way of reading the link as the regular expression does: an
      optional scheme, an optional `www.`, one of the four hosts, the id
      and the tail. */
  predicate IsReading(url: string, scheme: string, www: string, host: string, id: string, tail: string) {
    scheme in Schemes && www in Wwws && host in Hosts && IsVideoId(id) && TailOk(tail) &&
    url == scheme + (www + (host + (id + tail)))
  }

  /** `re.match(YOUTUBE_REGEX, url)` succeeds. */
  ghost predicate MatchesYouTube(url: string) {
    exists scheme, www, host, id, tail :: IsReading(url, scheme, www, host, id, tail)
  }

  /** The scheme, when the link starts with one, and the rest. */
  function SplitScheme(url: string): (r: (string, string))
    ensures r.0 in Schemes && url == r.0 + r.1
  {
    if StartsWith(url, Https) then
      assert url == url[..|Https|] + url[|Https|..];
      (Https, url[|Https|..])
    else if StartsWith(url, Http) then
      assert url == url[..|Http|] + url[|Http|..];
      (Http, url[|Http|..])
    else ("", url)
  }

  /** `www.`, when the text starts with it, and the rest. */
  function SplitWww(s: string): (r: (string, string))
    ensures r.0 in Wwws && s == r.0 + r.1
  {
    if StartsWith(s, Www) then
      assert s == s[..|Www|] + s[|Www|..];
      (Www, s[|Www|..])
    else ("", s)
  }

  /** The host the text starts with, and the rest. */
  function SplitHost(s: string): (r: Option<(string, string)>)
    ensures r.Some? ==> r.value.0 in Hosts && s == r.value.0 + r.value.1
  {
    if StartsWith(s, WatchHost) then
      assert s == s[..|WatchHost|] + s[|WatchHost|..];
      Some((WatchHost, s[|WatchHost|..]))
    else if StartsWith(s, EmbedHost) then
      assert s == s[..|EmbedHost|] + s[|EmbedHost|..];
      Some((EmbedHost, s[|EmbedHost|..]))
    else if StartsWith(s, VHost) then
      assert s == s[..|VHost|] + s[|VHost|..];
      Some((VHost, s[|VHost|..]))
    else if StartsWith(s, ShortHost) then
      assert s == s[..|ShortHost|] + s[|ShortHost|..];
      Some((ShortHost, s[|ShortHost|..]))
    else None
  }

  /** The id the regular expression captures, read left to right: each
      optional part is taken when present, since no host starts like a
      scheme or like `www.`. */
  function VideoIdOf(url: string): (r: Option<string>)
    ensures r.Some? ==> IsVideoId(r.value)
  {
    var afterWww := SplitWww(SplitScheme(url).1).1;
    match SplitHost(afterWww)
    case None => None
    case Some(h) =>
      var rest := h.1;
      if IdLength <= |rest| && IsVideoId(rest[..IdLength]) && TailOk(rest[IdLength..])
      then Some(rest[..IdLength])
      else None
  }

  lemma NotAtWhereDiffers(s: string, p: string, j: nat)
    requires j < |p| && j < |s| && s[j] != p[j]
    ensures !StartsWith(s, p)
  {
    if |p| <= |s| {
      assert s[0..|p|][j] == s[j];
    }
  }

  lemma SchemeOf(scheme: string, rest: string)
    requires scheme in Schemes && |rest| > 0 && (rest[0] == 'w' || rest[0] == 'y')
    ensures SplitScheme(scheme + rest) == (scheme, rest)
  {
    var url := scheme + rest;
    if scheme == Https {
      assert url[..|Https|] == Https;
      assert url[|Https|..] == rest;
    } else if scheme == Http {
      NotAtWhereDiffers(url, Https, 4);
      assert url[..|Http|] == Http;
      assert url[|Http|..] == rest;
    } else {
      assert url == rest;
      NotAtWhereDiffers(url, Https, 0);
      NotAtWhereDiffers(url, Http, 0);
    }
  }

  lemma WwwOf(www: string, rest: string)
    requires www in Wwws && |rest| > 0 && rest[0] == 'y'
    ensures SplitWww(www + rest) == (www, rest)
  {
    var s := www + rest;
    if www == Www {
      assert s[..|Www|] == Www;
      assert s[|Www|..] == rest;
    } else {
      assert s == rest;
      NotAtWhereDiffers(s, Www, 0);
    }
  }

  lemma HostOf(host: string, rest: string)
    requires host in Hosts
    ensures SplitHost(host + rest) == Some((host, rest))
  {
    var s := host + rest;
    assert s[..|host|] == host;
    assert s[|host|..] == rest;
    if host == EmbedHost || host == VHost {
      assert s[12] == host[12];
      NotAtWhereDiffers(s, WatchHost, 12);
      if host == VHost {
        NotAtWhereDiffers(s, EmbedHost, 12);
      }
    } else if host == ShortHost {
      assert s[5] == '.';
      NotAtWhereDiffers(s, WatchHost, 5);
      NotAtWhereDiffers(s, EmbedHost, 5);
      NotAtWhereDiffers(s, VHost, 5);
    }
  }

  /** Every reading of a link is the one VideoIdOf finds: the regular
      expression accepts it and captures that id. */
  lemma VideoIdComplete(url: string, scheme: string, www: string, host: string, id: string, tail: string)
    requires IsReading(url, scheme, www, host, id, tail)
    ensures VideoIdOf(url) == Some(id)
  {
    var rest := id + tail;
    var afterWww := host + rest;
    var afterScheme := www + afterWww;
    assert afterWww[0] == 'y';
    assert afterScheme[0] == 'w' || afterScheme[0] == 'y' by {
      if www == "" { assert afterScheme == afterWww; }
    }
    SchemeOf(scheme, afterScheme);
    WwwOf(www, afterWww);
    HostOf(host, rest);
    assert rest[..IdLength] == id && rest[IdLength..] == tail;
  }

  /** What VideoIdOf accepts is a reading of the link. */
  lemma VideoIdSound(url: string)
    requires VideoIdOf(url).Some?
    ensures MatchesYouTube(url)
  {
    var (scheme, afterScheme) := SplitScheme(url);
    var (www, afterWww) := SplitWww(afterScheme);
    var (host, rest) := SplitHost(afterWww).value;
    var id, tail := rest[..IdLength], rest[IdLength..];
    assert rest == id + tail;
    assert IsReading(url, scheme, www, host, id, tail);
  }

  /** The link check and the id extraction agree with the regular
      expression on every string. */
  lemma VideoIdMatchesRegex(url: string)
    ensures VideoIdOf(url).Some? <==> MatchesYouTube(url)
  {
    if VideoIdOf(url).Some? {
      VideoIdSound(url);
    }
    if MatchesYouTube(url) {
      var scheme, www, host, id, tail :| IsReading(url, scheme, www, host, id, tail);
      VideoIdComplete(url, scheme, www, host, id, tail);
    }
  }

  // ---------------------------------------------------------------------
  // generate

  datatype Task = Summarize | Transcribe | Explain | Latex
  datatype Language = En | Fr | Es | De | Ro

  const Tasks := ["summarize", "transcribe", "explain", "latex"]
  const Languages := ["en", "fr", "es", "de", "ro"]
  const ExplainEnglish := "Tell me about this video"

  /** The task names `generate` compares against. */
  function TaskOf(task: string): (r: Option<Task>)
    ensures r.Some? <==> task in Tasks
    ensures r == Some(Explain) <==> task == "explain"
  {
    if task == "summarize" then Some(Summarize)
    else if task == "transcribe" then Some(Transcribe)
    else if task == "explain" then Some(Explain)
    else if task == "latex" then Some(Latex)
    else None
  }

  /** The language codes `generate` compares against. */
  function LanguageOf(language: string): (r: Option<Language>)
    ensures r.Some? <==> language in Languages
    ensures r == Some(En) <==> language == "en"
  {
    if language == "en" then Some(En)
    else if language == "fr" then Some(Fr)
    else if language == "es" then Some(Es)
    else if language == "de" then Some(De)
    else if language == "ro" then Some(Ro)
    else None
  }

  /** The five-by-four table of questions. */
  function QuestionText(task: Task, language: Language): string {
    match task
    case Summarize => (match language
      case En => "Can you summarize this video?"
      case Fr => "Peux-tu résumer cette vidéo?"
      case Es => "¿Puedes resumir este video?"
      case De => "Kannst du dieses Video zusammenfassen?"
      case Ro => "Poți rezuma acest videoclip?")
    case Transcribe => (match language
      case En => "Transcribe the audio from this video, giving timestamps for salient events in the video. Also provide visual descriptions."
      case Fr => "Transcris le son de cette vidéo, en donnant des horodatages pour les événements saillants de la vidéo. Fournis également des descriptions visuelles."
      case Es => "Transcribe el audio de este video, dando marcas de tiempo para los eventos destacados en el video. También proporciona descripciones visuales."
      case De => "Transkribiere den Ton dieses Videos und gib Zeitstempel für die herausragenden Ereignisse im Video an. Gib auch visuelle Beschreibungen an."
      case Ro => "Transcrie sunetul acestui videoclip, oferind marcaje de timp pentru evenimentele importante din videoclip. Oferă și descrieri vizuale.")
    case Explain => (match language
      case En => ExplainEnglish
      case Fr => "Parle-moi de cette vidéo"
      case Es => "Háblame de este video"
      case De => "Erzähl mir von diesem Video"
      case Ro => "Spune-mi despre acest videoclip")
    case Latex => (match language
      case En => "Generate a latex document from this video."
      case Fr => "Générer un document latex à partir de cette vidéo."
      case Es => "Generar un documento latex a partir de este video."
      case De => "Generieren Sie ein latex-Dokument aus diesem Video."
      case Ro => "Generați un document latex din acest video.")
  }

  /** The question `generate` intends for a task and a language; None
      where the table has no entry and `question` stays unassigned. */
  function Question(task: string, language: string): (r: Option<string>)
    ensures r.Some? <==> task in Tasks && language in Languages
    ensures task == "explain" && language == "en" ==> r == Some(ExplainEnglish)
  {
    match (TaskOf(task), LanguageOf(language))
    case (Some(t), Some(l)) => Some(QuestionText(t, l))
    case _ => None
  }

  /** A question value: a string, or a one-element tuple holding one. */
  datatype Prompt = Plain(text: string) | OneTuple(item: string)

  /** Python `str()` of the value: a one-element tuple of a string without
      quotes or backslashes prints as `('…',)`. */
  function Str(p: Prompt): string {
    match p
    case Plain(t) => t
    case OneTuple(t) => "('" + t + "',)"
  }

  /** The question as the code assigns it: the trailing comma after the
      explain/en string makes that entry a one-element tuple. */
  function QuestionAsWritten(task: string, language: string): (r: Option<Prompt>)
    ensures r.Some? <==> Question(task, language).Some?
    ensures r.Some? && r.value.OneTuple? <==> task == "explain" && language == "en"
  {
    if task == "explain" && language == "en" then Some(OneTuple(ExplainEnglish))
    else match Question(task, language)
      case None => None
      case Some(q) => Some(Plain(q))
  }

  /** Where the content comes from. */
  datatype Source = Link(url: string) | Upload(path: string)

  /** What `generate` does: the invalid-mode message, the
      UnboundLocalError of a question never assigned, or the question and
      the content it sends. */
  datatype Reply = InvalidMode | QuestionUnbound | Asked(source: Source, prompt: Prompt)

  const InvalidModeMessage := "Invalid mode or missing file"

  predicate ModeOk(mode: string, file: Option<string>, link: Option<string>) {
    (mode == "youtube" && link.Some? && link.value != "") || (mode == "video" && file.Some?)
  }

  /** generate as written: a YouTube link is sent with `str(question)`, an
      uploaded file with the question value itself. */
  function GenerateAsWritten(mode: string, task: string, file: Option<string>, language: string, link: Option<string>): (r: Reply)
    ensures r == InvalidMode <==> !ModeOk(mode, file, link)
    ensures r == QuestionUnbound <==> ModeOk(mode, file, link) && Question(task, language).None?
  {
    var q := QuestionAsWritten(task, language);
    if mode == "youtube" && link.Some? && link.value != "" then
      if q.None? then QuestionUnbound else Asked(Link(link.value), Plain(Str(q.value)))
    else if mode == "video" && file.Some? then
      if q.None? then QuestionUnbound else Asked(Upload(file.value), q.value)
    else InvalidMode
  }

  /** generate with the explain/en question a plain string. */
  function Generate(mode: string, task: string, file: Option<string>, language: string, link: Option<string>): (r: Reply)
    ensures r == InvalidMode <==> !ModeOk(mode, file, link)
    ensures r == QuestionUnbound <==> ModeOk(mode, file, link) && Question(task, language).None?
    ensures r.Asked? ==> r.prompt == Plain(Question(task, language).value)
    ensures r.Asked? && mode == "youtube" ==> r.source == Link(link.value)
    ensures r.Asked? && mode == "video" ==> r.source == Upload(file.value)
  {
    var q := Question(task, language);
    if mode == "youtube" && link.Some? && link.value != "" then
      if q.None? then QuestionUnbound else Asked(Link(link.value), Plain(q.value))
    else if mode == "video" && file.Some? then
      if q.None? then QuestionUnbound else Asked(Upload(file.value), Plain(q.value))
    else InvalidMode
  }

  /** As written, explaining a YouTube video in English sends the text of
      a tuple, not the question. */
  lemma ExplainEnglishSendsTuple(url: string)
    requires url != ""
    ensures GenerateAsWritten("youtube", "explain", None, "en", Some(url)) ==
      Asked(Link(url), Plain("('Tell me about this video',)"))
    ensures Generate("youtube", "explain", None, "en", Some(url)) ==
      Asked(Link(url), Plain("Tell me about this video"))
  {
    YouTubeExplainEnglish(url);
    TupleText();
  }

  /** What Python prints for the explain/en tuple. */
  lemma TupleText()
    ensures Str(OneTuple(ExplainEnglish)) == "('Tell me about this video',)"
  {
    var t := "('" + ExplainEnglish + "',)";
    assert |t| == 29;
    assert forall k :: 0 <= k < 29 ==> t[k] == "('Tell me about this video',)"[k];
  }

  /** Both versions send the link; they differ in the prompt. */
  lemma YouTubeExplainEnglish(url: string)
    requires url != ""
    ensures GenerateAsWritten("youtube", "explain", None, "en", Some(url)) ==
      Asked(Link(url), Plain(Str(OneTuple(ExplainEnglish))))
    ensures Generate("youtube", "explain", None, "en", Some(url)) ==
      Asked(Link(url), Plain(ExplainEnglish))
  {
  }

  /** Everywhere else the code as written does what the corrected table
      does. */
  lemma AsWrittenAgreesElsewhere(mode: string, task: string, file: Option<string>, language: string, link: Option<string>)
    requires !(task == "explain" && language == "en")
    ensures GenerateAsWritten(mode, task, file, language, link) == Generate(mode, task, file, language, link)
  {
  }

  // ---------------------------------------------------------------------
  // The endpoints

  const NoFilename := "No filename provided."
  const NotAVideo := "Invalid file type. Only video files are allowed."
  const VideoType := "video/"
  const UploadsName := "uploads"

  datatype VideoUpload = VideoRejected(detail: string) | VideoSaved(filename: string, savedPath: string, reply: Reply)

  /** upload_video: a missing or empty file name and a content type that
      is not `video/…` are refused with 400; otherwise the file is kept
      under its last path component and handed to generate. */
  function UploadVideo(filename: Option<string>, contentType: Option<string>, language: string, task: string, dir: string): (r: VideoUpload)
    ensures (filename.None? || filename.value == "") ==> r == VideoRejected(NoFilename)
    ensures filename.Some? && filename.value != "" && (contentType.None? || !StartsWith(contentType.value, VideoType)) ==>
      r == VideoRejected(NotAVideo)
    ensures r.VideoSaved? ==> r.filename == PathName(filename.value) && '/' !in r.filename
    ensures r.VideoSaved? ==> r.reply != InvalidMode && (r.reply.Asked? ==> r.reply.source == Upload(dir + "/" + r.filename))
  {
    if filename.None? || filename.value == "" then VideoRejected(NoFilename)
    else if contentType.None? || !StartsWith(contentType.value, VideoType) then VideoRejected(NotAVideo)
    else
      var safe := PathName(filename.value);
      VideoSaved(safe, UploadsName + "/" + safe, Generate("video", task, Some(dir + "/" + safe), language, None))
  }

  datatype LinkUpload = LinkRejected | LinkReceived(videoId: string, reply: Reply)

  /** upload_youtube_link: the link must be an http(s) URL (HttpUrl) that
      the regular expression accepts; the captured id is returned with
      what generate sends. */
  function UploadYouTube(url: string, language: string, task: string): (r: LinkUpload)
    ensures r.LinkReceived? <==> (StartsWith(url, Https) || StartsWith(url, Http)) && VideoIdOf(url).Some?
    ensures r.LinkReceived? ==> IsVideoId(r.videoId) && r.videoId == VideoIdOf(url).value
    ensures r.LinkReceived? ==> r.reply != InvalidMode
  {
    if !(StartsWith(url, Https) || StartsWith(url, Http)) then LinkRejected
    else match VideoIdOf(url)
      case None => LinkRejected
      case Some(id) => LinkReceived(id, Generate("youtube", task, None, language, Some(url)))
  }

  /** A short link with an id and nothing after it is received with that
      id. */
  lemma ShortLinkReceived(id: string, language: string, task: string)
    requires IsVideoId(id)
    ensures UploadYouTube(Https + ShortHost + id, language, task).LinkReceived?
    ensures UploadYouTube(Https + ShortHost + id, language, task).videoId == id
  {
    var url := Https + ShortHost + id;
    assert url == Https + ("" + (ShortHost + (id + "")));
    assert IsReading(url, Https, "", ShortHost, id, "");
    VideoIdComplete(url, Https, "", ShortHost, id, "");
    assert url[..|Https|] == Https;
  }
}
