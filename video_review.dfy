/**
 * Step 6, video generation: a guarded two-stage remote job. The script is
 * sent to a prompt-extraction service; the parsed reply is sent unchanged as
 * the body of the video-assembly request; a reply carrying a truthy
 * `final_video_url` sets the playable url under the video service's base.
 * Any failure leaves the url as it was; once the guard has passed, the
 * generating flag and the status text are always reset at the end.
 *
 * The network is not modelled: each fetch is replaced by the outcome it
 * produced, passed in as a parameter, and the requests the step sends are
 * returned so that what it sends can be stated.
 */
module VideoReview {
  import opened JsText

  const PromptEndpoint: string := "https://dyscriptgenerator.onrender.com/prompt-extrval"
  const VideoEndpoint: string := "https://videogenerator-ayob.onrender.com/generate-final-video"
  const VideoBase: string := "https://videogenerator-ayob.onrender.com/"

  const ExtractingMessage: string := "正在分析腳本並提取視覺提示詞..."
  const RenderingMessage: string := "提示詞提取完成，正在生成影片 (這可能需要幾分鐘)..."

  /** The file name the download link suggests. */
  const DownloadName: string := "generated-video.mp4"

  /** A parsed JSON value (numbers restricted to integers). */
  datatype Json =
    | Null
    | Bool(b: bool)
    | Num(n: int)
    | Str(s: string)
    | Arr(items: seq<Json>)
    | Obj(fields: map<string, Json>)

  /** JavaScript truthiness of a parsed value. */
  predicate Truthy(j: Json) {
    match j
    case Null => false
    case Bool(b) => b
    case Num(n) => n != 0
    case Str(s) => s != ""
    case Arr(_) => true
    case Obj(_) => true
  }

  /** What a template literal makes of a parsed value (an array joins its items with commas, null items as ""). */
  function TemplateString(j: Json): string
    decreases j, 1
  {
    match j
    case Null => "null"
    case Bool(b) => if b then "true" else "false"
    case Num(n) => if n < 0 then "-" + Decimal(-n) else Decimal(n)
    case Str(s) => s
    case Arr(items) => JoinItems(items, j)
    case Obj(_) => "[object Object]"
  }

  function JoinItems(items: seq<Json>, whole: Json): string
    requires forall k :: 0 <= k < |items| ==> items[k] < whole
    decreases whole, 0, |items|
  {
    if items == [] then ""
    else
      var first := if items[0].Null? then "" else TemplateString(items[0]);
      if |items| == 1 then first else first + "," + JoinItems(items[1..], whole)
  }

  /** What one `fetch` produced: a rejected promise, or a response with its status flag and parsed body (None when `.json()` fails). */
  datatype FetchOutcome = NetworkError | Reply(ok: bool, body: Option<Json>)

  /** One request the step sends: the endpoint and the value serialised into the body. */
  datatype Request = Request(endpoint: string, body: Json)

  /** `{ script: generatedScript }` */
  function ScriptPayload(script: string): Json {
    Obj(map["script" := Str(script)])
  }

  /** The guard `if (!generatedScript) return`: a script that is present and non-empty. */
  predicate HasScript(generatedScript: Option<string>) {
    generatedScript.Some? && generatedScript.value != ""
  }

  /** The parsed body of a successful fetch, if there is one. */
  function Parsed(outcome: FetchOutcome): Option<Json> {
    if outcome.Reply? && outcome.ok then outcome.body else None
  }

  /** `videoResult && videoResult.final_video_url`, when truthy: the url to show. */
  function FinalUrl(videoResult: Json): (r: Option<string>)
    ensures r.Some? <==> videoResult.Obj? && "final_video_url" in videoResult.fields
                         && Truthy(videoResult.fields["final_video_url"])
    ensures r.Some? ==> |VideoBase| <= |r.value| && r.value[..|VideoBase|] == VideoBase
    ensures videoResult.Obj? && "final_video_url" in videoResult.fields
            && videoResult.fields["final_video_url"].Str? && videoResult.fields["final_video_url"].s != "" ==>
              r == Some(VideoBase + videoResult.fields["final_video_url"].s)
  {
    if Truthy(videoResult) && videoResult.Obj? && "final_video_url" in videoResult.fields
       && Truthy(videoResult.fields["final_video_url"])
    then Some(VideoBase + TemplateString(videoResult.fields["final_video_url"]))
    else None
  }

  /** The url an attempt that passed the guard ends with, if it succeeds. */
  function AttemptResult(promptReply: FetchOutcome, videoReply: FetchOutcome): (r: Option<string>)
    ensures r.Some? ==> Parsed(promptReply).Some? && Parsed(videoReply).Some?
    ensures Parsed(promptReply).Some? && Parsed(videoReply).Some? ==> r == FinalUrl(Parsed(videoReply).value)
    ensures r.Some? ==> |VideoBase| <= |r.value| && r.value[..|VideoBase|] == VideoBase
  {
    if Parsed(promptReply).None? then None
    else if Parsed(videoReply).None? then None
    else FinalUrl(Parsed(videoReply).value)
  }

  /** Each of the three failures (prompt reply, video reply, missing url) leaves the attempt without a url. */
  lemma FailuresGiveNoUrl(promptReply: FetchOutcome, videoReply: FetchOutcome)
    ensures promptReply.NetworkError? || (promptReply.Reply? && !promptReply.ok) ==> AttemptResult(promptReply, videoReply).None?
    ensures videoReply.NetworkError? || (videoReply.Reply? && !videoReply.ok) ==> AttemptResult(promptReply, videoReply).None?
    ensures (forall j :: Parsed(videoReply) == Some(j) ==> !(j.Obj? && "final_video_url" in j.fields)) ==>
              AttemptResult(promptReply, videoReply).None?
  {
  }

  /** A download link: where it points, that it opens a new window, and the suggested file name. */
  datatype DownloadLink = DownloadLink(href: string, newWindow: bool, fileName: string)

  /** The step's own state, and the script it was given. */
  class VideoGeneration {
    var videoUrl: string
    var isGenerating: bool
    var statusMessage: string
    const generatedScript: Option<string>

    constructor (generatedScript: Option<string>)
      ensures videoUrl == "" && !isGenerating && statusMessage == ""
      ensures this.generatedScript == generatedScript
    {
      videoUrl := "";
      isGenerating := false;
      statusMessage := "";
      this.generatedScript := generatedScript;
    }

    /**
     * `generateVideo` with the two fetches' outcomes supplied. Without a
     * script nothing is sent and nothing changes. Otherwise the script goes
     * out first; only a successful, parsable prompt reply leads to the second
     * request, whose body is that reply; the url changes only on success; the
     * flag and the status text end reset.
     */
    method GenerateVideo(promptReply: FetchOutcome, videoReply: FetchOutcome) returns (sent: seq<Request>)
      modifies this
      ensures !HasScript(generatedScript) ==>
        sent == [] && videoUrl == old(videoUrl) && isGenerating == old(isGenerating) && statusMessage == old(statusMessage)
      ensures HasScript(generatedScript) ==>
        && 1 <= |sent| <= 2
        && sent[0] == Request(PromptEndpoint, ScriptPayload(generatedScript.value))
        && (|sent| == 2 <==> Parsed(promptReply).Some?)
        && (|sent| == 2 ==> sent[1] == Request(VideoEndpoint, Parsed(promptReply).value))
        && videoUrl == (match AttemptResult(promptReply, videoReply) case Some(url) => url case None => old(videoUrl))
        && !isGenerating && statusMessage == ""
    ensures HasScript(generatedScript) && AttemptResult(promptReply, videoReply).Some? ==> ShowsPlayer()
    ensures HasScript(generatedScript) ==> !GenerateButtonDisabled()
    {
      sent := [];
      if !HasScript(generatedScript) {
        return;
      }
      isGenerating := true;
      statusMessage := ExtractingMessage;
      sent := sent + [Request(PromptEndpoint, ScriptPayload(generatedScript.value))];
      var promptData := Parsed(promptReply);
      if promptData.Some? {
        statusMessage := RenderingMessage;
        sent := sent + [Request(VideoEndpoint, promptData.value)];
        var videoResult := Parsed(videoReply);
        if videoResult.Some? {
          var url := FinalUrl(videoResult.value);
          if url.Some? {
            videoUrl := url.value;
          }
        }
      }
      isGenerating := false;
      statusMessage := "";
    }

    /**
     * The regenerate button: clears the url, then runs the job again. The
     * player stays on screen only when the new attempt succeeds.
     */
    method Regenerate(promptReply: FetchOutcome, videoReply: FetchOutcome) returns (sent: seq<Request>)
      modifies this
      ensures videoUrl == (if HasScript(generatedScript) && AttemptResult(promptReply, videoReply).Some?
                           then AttemptResult(promptReply, videoReply).value else "")
      ensures ShowsPlayer() <==> HasScript(generatedScript) && AttemptResult(promptReply, videoReply).Some?
      ensures !HasScript(generatedScript) ==>
        sent == [] && isGenerating == old(isGenerating) && statusMessage == old(statusMessage)
      ensures HasScript(generatedScript) ==>
        && 1 <= |sent| <= 2
        && sent[0] == Request(PromptEndpoint, ScriptPayload(generatedScript.value))
        && (|sent| == 2 <==> Parsed(promptReply).Some?)
        && (|sent| == 2 ==> sent[1] == Request(VideoEndpoint, Parsed(promptReply).value))
        && !isGenerating && statusMessage == ""
    {
      videoUrl := "";
      sent := GenerateVideo(promptReply, videoReply);
    }

    /** `downloadVideo`: a link to the video when there is one, nothing otherwise. */
    function DownloadVideo(): (link: Option<DownloadLink>)
      reads this
      ensures link.Some? <==> videoUrl != ""
      ensures link.Some? <==> ShowsPlayer()
      ensures link.Some? ==> link.value.href == videoUrl && link.value.fileName == DownloadName
    {
      if videoUrl != "" then Some(DownloadLink(videoUrl, true, DownloadName)) else None
    }

    /** The player and its actions (regenerate, download) replace the generate button exactly when there is a url. */
    predicate ShowsPlayer()
      reads this
    {
      videoUrl != ""
    }

    /** `disabled={isGenerating}` on the generate button. */
    predicate GenerateButtonDisabled()
      reads this
    {
      isGenerating
    }
  }
}
