/** The camera side of the HTTP server (main.go): the still-image stream
    endpoint and the start/stop endpoints. The capture itself is an
    external process, so its result is passed in. */
module Camera {
  import opened Text
  import opened GoFormat

  /** What `captureImage` hands back: the JPEG bytes, or the error text. */
  datatype Capture = Captured(image: seq<bv8>) | CaptureFailed(reason: string)

  /** Markers that `captureImage` puts in its error texts. */
  const TermuxApiMissing: string := "termux:api not available"
  const CameraInfoFailed: string := "camera info failed"
  const CameraCaptureFailed: string := "camera capture failed"

  /** Headlines of the placeholder picture. */
  const NoCamera: string := "Cámara no disponible"
  const NoTermuxApi: string := "Termux:API no instalado"
  const PermissionDenied: string := "Permisos de cámara denegados"
  const CaptureError: string := "Error al capturar imagen"

  /** The headline `handleStream` picks for a failed capture: the first
      marker found in the error text, in the order above, decides; with no
      marker the generic headline stays. */
  function StreamErrorMessage(reason: string): (headline: string)
    ensures headline in {NoCamera, NoTermuxApi, PermissionDenied, CaptureError}
    ensures headline == NoTermuxApi <==> Contains(reason, TermuxApiMissing)
    ensures headline == PermissionDenied <==>
      !Contains(reason, TermuxApiMissing) && Contains(reason, CameraInfoFailed)
    ensures headline == CaptureError <==>
      !Contains(reason, TermuxApiMissing) && !Contains(reason, CameraInfoFailed)
      && Contains(reason, CameraCaptureFailed)
    ensures headline == NoCamera <==>
      !Contains(reason, TermuxApiMissing) && !Contains(reason, CameraInfoFailed)
      && !Contains(reason, CameraCaptureFailed)
  {
    if Contains(reason, TermuxApiMissing) then NoTermuxApi
    else if Contains(reason, CameraInfoFailed) then PermissionDenied
    else if Contains(reason, CameraCaptureFailed) then CaptureError
    else NoCamera
  }

  /** The text of the placeholder template of `handleStream` between the
      places where a colour or an argument goes. */
  const SvgStart: string := "<svg width=\"640\" height=\"480\" xmlns=\"http://www.w3.org/2000/svg\">\n\t\t\t<rect width=\"640\" height=\"480\" fill=\""
  const HeadlineStart: string := "\"/>\n\t\t\t<text x=\"320\" y=\"200\" font-family=\"Arial\" font-size=\"28\" fill=\"white\" text-anchor=\"middle\">\n\t\t\t\t📱 "
  const DetailColour: string := "\n\t\t\t</text>\n\t\t\t<text x=\"320\" y=\"240\" font-family=\"Arial\" font-size=\"18\" fill=\""
  const DetailStart: string := "\" text-anchor=\"middle\">\n\t\t\t\tError: "
  const HintColour: string := "\n\t\t\t</text>\n\t\t\t<text x=\"320\" y=\"280\" font-family=\"Arial\" font-size=\"14\" fill=\""
  const CommandColour: string := "\" text-anchor=\"middle\">\n\t\t\t\tRevisa la consola para más detalles\n\t\t\t</text>\n\t\t\t<text x=\"320\" y=\"310\" font-family=\"Arial\" font-size=\"12\" fill=\""
  const SvgEnd: string := " text-anchor=\"middle\">\n\t\t\t\tEjecuta: termux-camera-info\n\t\t\t</text>\n\t\t</svg>"

  /** The template as written: the colours are URL-escaped as `%23…`, which
      `fmt` reads as a width followed by a verb (`%231a`, `%23f`, `%23c`
      and `%23"`), so they take the argument slots. */
  const StreamSvgAsWritten: seq<Piece> :=
    Step(SvgStart, 231, 'a', Step("1a2e" + HeadlineStart, 0, 's',
    Step(DetailColour, 23, 'f', Step("f6b6b" + DetailStart, 0, 's',
    Step(HintColour, 23, 'c', Step("cc" + CommandColour, 23999, '"',
    [Text(SvgEnd)]))))))

  /** The template with the colours written as `#…`: only the headline and
      the error text are directives. */
  const StreamSvgIntended: seq<Piece> :=
    Step(PlaceholderHead, 0, 's', Step(PlaceholderMiddle, 0, 's', [Text(PlaceholderTail)]))

  const PlaceholderHead: string := SvgStart + ("#1a1a2e" + HeadlineStart)
  const PlaceholderMiddle: string := DetailColour + "#ff6b6b" + DetailStart
  const PlaceholderTail: string := HintColour + "#ccc" + CommandColour + "#999\"" + SvgEnd

  /** The placeholder picture: the headline under the camera icon, the
      error text after "Error: ". */
  function PlaceholderSvg(headline: string, detail: string): string {
    PlaceholderHead + (headline + (PlaceholderMiddle + (detail + PlaceholderTail)))
  }

  /** What the template as written prints instead: the headline ends up in
      the fill attribute of the background, the error text under the icon,
      and every other directive reports a missing argument. */
  function GarbledSvg(headline: string, detail: string): string {
    SvgStart + (BadVerb('a', 231, headline) + ("1a2e" + HeadlineStart + (detail
    + (DetailColour + (Missing('f') + ("f6b6b" + DetailStart + (Missing('s')
    + (HintColour + (Missing('c') + ("cc" + CommandColour + (Missing('"') + SvgEnd)))))))))))
  }

  /** Text followed by one directive, then the rest of the template. */
  function Step(t: string, w: nat, v: char, rest: seq<Piece>): seq<Piece> {
    [Text(t), Verb(w, v)] + rest
  }

  /** A step before a modelled template is modelled. */
  lemma StepModelled(t: string, w: nat, v: char, q: seq<Piece>)
    requires Modelled(q) && v !in {'q', 'x', 'X', 'T'}
    ensures Modelled(Step(t, w, v, q))
  {
    var p := Step(t, w, v, q);
    assert forall k :: 2 <= k < |p| ==> p[k] == q[k - 2];
  }

  /** A step whose directive consumes an argument. */
  lemma RenderStepArgument(t: string, w: nat, v: char, q: seq<Piece>, arg: string, rest: seq<string>)
    requires v != '%' && v !in {'q', 'x', 'X', 'T'} && Modelled(q)
    ensures Modelled(Step(t, w, v, q))
    ensures Render(Step(t, w, v, q), [arg] + rest) == t + (StringVerb(w, v, arg) + Render(q, rest))
  {
    StepModelled(t, w, v, q);
    assert Step(t, w, v, q) == [Text(t)] + ([Verb(w, v)] + q);
    RenderCons(Text(t), [Verb(w, v)] + q, [arg] + rest);
    RenderCons(Verb(w, v), q, [arg] + rest);
    assert ([arg] + rest)[1..] == rest;
  }

  /** A step whose directive finds no argument left. */
  lemma RenderStepMissing(t: string, w: nat, v: char, q: seq<Piece>)
    requires v != '%' && v !in {'q', 'x', 'X', 'T'} && Modelled(q)
    ensures Modelled(Step(t, w, v, q))
    ensures Render(Step(t, w, v, q), []) == t + (Missing(v) + Render(q, []))
  {
    StepModelled(t, w, v, q);
    assert Step(t, w, v, q) == [Text(t)] + ([Verb(w, v)] + q);
    RenderCons(Text(t), [Verb(w, v)] + q, []);
    RenderCons(Verb(w, v), q, []);
  }

  /** The shape of the template as written, over any literal fragments:
      `%231a` takes the first argument, the plain `%s` the second, and the
      three directives after it find no argument left. */
  lemma RenderAsWrittenShape(t0: string, t2: string, t4: string, t6: string, t8: string,
                             t10: string, t12: string, headline: string, detail: string)
    ensures var p := Step(t0, 231, 'a', Step(t2, 0, 's', Step(t4, 23, 'f', Step(t6, 0, 's',
                       Step(t8, 23, 'c', Step(t10, 23999, '"', [Text(t12)]))))));
      Modelled(p) &&
      Render(p, [headline, detail]) ==
        t0 + (BadVerb('a', 231, headline) + (t2 + (detail + (t4 + (Missing('f') + (t6 + (Missing('s')
        + (t8 + (Missing('c') + (t10 + (Missing('"') + t12)))))))))))
  {
    RenderText(t12);
    var q4 := Step(t10, 23999, '"', [Text(t12)]);
    RenderStepMissing(t10, 23999, '"', [Text(t12)]);
    var q3 := Step(t8, 23, 'c', q4);
    RenderStepMissing(t8, 23, 'c', q4);
    var q2 := Step(t6, 0, 's', q3);
    RenderStepMissing(t6, 0, 's', q3);
    var q1 := Step(t4, 23, 'f', q2);
    RenderStepMissing(t4, 23, 'f', q2);
    var q0 := Step(t2, 0, 's', q1);
    RenderStepArgument(t2, 0, 's', q1, detail, []);
    RenderStepArgument(t0, 231, 'a', q0, headline, [detail]);
    assert [detail] + [] == [detail] && [headline] + [detail] == [headline, detail];
  }

  /** The shape of the intended template: two `%s`, filled in order. */
  lemma RenderIntendedShape(t0: string, t2: string, t4: string, headline: string, detail: string)
    ensures var p := Step(t0, 0, 's', Step(t2, 0, 's', [Text(t4)]));
      Modelled(p) && Render(p, [headline, detail]) == t0 + (headline + (t2 + (detail + t4)))
  {
    RenderText(t4);
    RenderStepArgument(t2, 0, 's', [Text(t4)], detail, []);
    RenderStepArgument(t0, 0, 's', Step(t2, 0, 's', [Text(t4)]), headline, [detail]);
    assert [detail] + [] == [detail] && [headline] + [detail] == [headline, detail];
  }

  /** The body `handleStream` sends: the JPEG itself, or an SVG picture. */
  datatype StreamReply =
    | JpegImage(image: seq<bv8>)
    | SvgImage(svg: string)

  /** `handleStream` with the template as intended: a successful capture
      is sent unchanged, a failed one as the placeholder picture carrying
      the classified headline and the error text. */
  function StreamResponse(capture: Capture): (reply: StreamReply)
    ensures reply.JpegImage? <==> capture.Captured?
    ensures capture.Captured? ==> reply.image == capture.image
    ensures capture.CaptureFailed? ==>
      reply.svg == PlaceholderSvg(StreamErrorMessage(capture.reason), capture.reason)
  {
    match capture
    case Captured(image) => JpegImage(image)
    case CaptureFailed(reason) =>
      var headline := StreamErrorMessage(reason);
      RenderIntendedShape(PlaceholderHead, PlaceholderMiddle, PlaceholderTail, headline, reason);
      SvgImage(Render(StreamSvgIntended, [headline, reason]))
  }

  /** `handleStream` as written: the same choice between the JPEG and the
      placeholder, but the placeholder is the garbled one. */
  function StreamResponseAsWritten(capture: Capture): (reply: StreamReply)
    ensures reply.JpegImage? <==> capture.Captured?
    ensures capture.Captured? ==> reply.image == capture.image
    ensures capture.CaptureFailed? ==>
      reply.svg == GarbledSvg(StreamErrorMessage(capture.reason), capture.reason)
  {
    match capture
    case Captured(image) => JpegImage(image)
    case CaptureFailed(reason) =>
      var headline := StreamErrorMessage(reason);
      RenderAsWrittenShape(SvgStart, "1a2e" + HeadlineStart, DetailColour, "f6b6b" + DetailStart,
                           HintColour, "cc" + CommandColour, SvgEnd, headline, reason);
      SvgImage(Render(StreamSvgAsWritten, [headline, reason]))
  }

  /** For every failed capture the picture sent differs from the intended
      one. */
  lemma PlaceholderTemplateIsGarbled(reason: string)
    ensures StreamResponseAsWritten(CaptureFailed(reason)) != StreamResponse(CaptureFailed(reason))
  {
    GarbledIsNotPlaceholder(StreamErrorMessage(reason), reason);
  }

  /** The garbled picture never is the intended one: where the background
      colour should start, it has the bad-verb report. */
  lemma GarbledIsNotPlaceholder(headline: string, detail: string)
    ensures GarbledSvg(headline, detail) != PlaceholderSvg(headline, detail)
  {
    DifferAfterCommonPrefix(SvgStart, BadVerb('a', 231, headline), "#1a1a2e" + HeadlineStart,
      "1a2e" + HeadlineStart + (detail
      + (DetailColour + (Missing('f') + ("f6b6b" + DetailStart + (Missing('s')
      + (HintColour + (Missing('c') + ("cc" + CommandColour + (Missing('"') + SvgEnd))))))))),
      headline + (PlaceholderMiddle + (detail + PlaceholderTail)));
  }

  /** Two texts that share a prefix and then start differently differ. */
  lemma DifferAfterCommonPrefix(prefix: string, x: string, y: string, xs: string, ys: string)
    requires |x| > 0 && |y| > 0 && x[0] != y[0]
    ensures prefix + (x + xs) != (prefix + y) + ys
  {
    assert (prefix + (x + xs))[|prefix|] == x[0];
    assert ((prefix + y) + ys)[|prefix|] == y[0];
  }

  /** A JSON reply of the start/stop endpoints: HTTP status and the fields
      of the encoded object. */
  datatype JsonReply = JsonReply(status: int, fields: map<string, string>)

  class CameraServer {
    const port: string
    var running: bool

    constructor (port: string)
      ensures this.port == port && !running
    {
      this.port := port;
      running := false;
    }

    /** `handleStartCamera`: a trial capture decides; only a successful one
        marks the camera as running, a failed one leaves the flag alone and
        answers 400 with the error text. */
    method HandleStartCamera(trial: Capture) returns (reply: JsonReply)
      modifies this`running
      ensures trial.Captured? ==> running
      ensures trial.CaptureFailed? ==> running == old(running)
      ensures reply.status == (if trial.Captured? then 200 else 400)
      ensures "status" in reply.fields && reply.fields["status"] == (if trial.Captured? then "started" else "error")
      ensures trial.CaptureFailed? ==>
        "message" in reply.fields && reply.fields["message"] == "Error al iniciar cámara: " + trial.reason
    {
      if trial.CaptureFailed? {
        reply := JsonReply(400, map[
          "status" := "error",
          "message" := "Error al iniciar cámara: " + trial.reason,
          "debug" := "Revisa la consola para más detalles"]);
        return;
      }
      running := true;
      reply := JsonReply(200, map[
        "status" := "started",
        "message" := "Cámara iniciada correctamente"]);
    }

    /** `handleStopCamera`: always clears the flag and reports success. */
    method HandleStopCamera() returns (reply: JsonReply)
      modifies this`running
      ensures !running
      ensures reply.status == 200 && "status" in reply.fields && reply.fields["status"] == "stopped"
    {
      running := false;
      reply := JsonReply(200, map[
        "status" := "stopped",
        "message" := "Cámara detendida correctamente"]);
    }
  }
}
