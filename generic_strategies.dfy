/** The generic grouping strategies for exceptions and stacktraces: which
    frames of a stacktrace are hashed, and which values of each frame are
    contributed to the grouping hash, in which order. */
module GenericStrategies {
  import opened Wrappers

  // ---------------------------------------------------------------------------
  // Strategy identifiers and event data
  // ---------------------------------------------------------------------------

  const InAppException := "generic-in-app-exception"
  const SystemException := "generic-exception"
  const InAppStacktrace := "generic-in-app-stacktrace"
  const SystemStacktrace := "generic-system-stacktrace"

  const ExceptionInterfaceKey := "sentry.interfaces.Exception"
  const StacktraceInterfaceKey := "sentry.interfaces.Stacktrace"

  /** A registered strategy: its version's identifier and version string, and
      whether the strategy object's own `function` attribute is truthy. */
  datatype Strategy = Strategy(identifier: string, version: string, hasFunction: bool)

  /** A JSON value of the raw event data. */
  datatype Json = Null | Bool(b: bool) | Number(n: int) | Str(s: string)
                | List(items: seq<Json>) | Object(fields: map<string, Json>)

  /** Python truthiness of a JSON value. */
  predicate JsonTruthy(j: Json) {
    match j
    case Null => false
    case Bool(b) => b
    case Number(n) => n != 0
    case Str(s) => s != ""
    case List(items) => items != []
    case Object(fields) => fields != map[]
  }

  /** Python truthiness of an optional string attribute. */
  predicate Truthy(s: Option<string>) {
    s.Some? && s.value != ""
  }

  /** Raw event data: interface name to the interface's dictionary. */
  type EventData = map<string, map<string, Json>>

  /** `GenericExceptionStrategy.stracktrace_strategy_id` (the source's spelling). */
  function StracktraceStrategyId(s: Strategy): (r: string)
    ensures r == InAppStacktrace <==> s.identifier == InAppException
    ensures r == InAppStacktrace || r == SystemStacktrace
  {
    if s.identifier == InAppException then InAppStacktrace else SystemStacktrace
  }

  /** `GenericExceptionStrategy.is_applicable_for_data`. */
  function ExceptionIsApplicable(data: EventData): (r: bool)
    ensures r ==> ExceptionInterfaceKey in data && "values" in data[ExceptionInterfaceKey]
    ensures r <==> ExceptionInterfaceKey in data && "values" in data[ExceptionInterfaceKey]
                   && JsonTruthy(data[ExceptionInterfaceKey]["values"])
  {
    ExceptionInterfaceKey in data
    && var values := if "values" in data[ExceptionInterfaceKey] then data[ExceptionInterfaceKey]["values"] else Null;
       JsonTruthy(values)
  }

  /** `GenericStacktraceStrategy.is_applicable_for_data`. */
  function StacktraceIsApplicable(data: EventData): (r: bool)
    ensures r <==> StacktraceInterfaceKey in data
  {
    StacktraceInterfaceKey in data
  }

  /** `GenericStacktraceStrategy.in_app_only`. */
  function InAppOnly(s: Strategy): (r: bool)
    ensures r <==> s.identifier != SystemStacktrace
  {
    s.identifier != SystemStacktrace
  }

  /** Each exception strategy hands its stacktrace to the stacktrace strategy
      of the same mode: the in-app exception strategy to the in-app one, the
      other to the complete one. */
  lemma ExceptionDelegatesToSameMode(s: Strategy, version: string, hasFunction: bool)
    requires s.identifier == InAppException || s.identifier == SystemException
    ensures InAppOnly(Strategy(StracktraceStrategyId(s), version, hasFunction)) <==> s.identifier == InAppException
  {
  }

  // ---------------------------------------------------------------------------
  // Frames
  // ---------------------------------------------------------------------------

  /** A stack frame; `isUrl` is the answer of the frame's own `is_url()`. */
  datatype Frame = Frame(inApp: bool, moduleName: Option<string>, filename: Option<string>,
                         functionName: Option<string>, symbol: Option<string>,
                         contextLine: Option<string>, platform: Option<string>, isUrl: bool)

  datatype Stacktrace = Stacktrace(frames: seq<Frame>)

  /** `frame.platform or platform`. */
  function EffectivePlatform(frame: Frame, platform: string): (r: string)
    ensures Truthy(frame.platform) ==> r == frame.platform.value
    ensures !Truthy(frame.platform) ==> r == platform
  {
    if Truthy(frame.platform) then frame.platform.value else platform
  }

  /** `a` is `b` with some elements left out. */
  ghost predicate Subsequence(a: seq<Frame>, b: seq<Frame>)
    decreases |b|
  {
    if a == [] then true
    else if b == [] then false
    else (a[0] == b[0] && Subsequence(a[1..], b[1..])) || Subsequence(a, b[1..])
  }

  lemma {:induction false} SubsequenceOfItself(a: seq<Frame>)
    ensures Subsequence(a, a)
    decreases |a|
  {
    if a != [] {
      SubsequenceOfItself(a[1..]);
    }
  }

  /** `[f for f in frames if f.in_app]`: the in-app frames, in their order. */
  function InAppFrames(frames: seq<Frame>): (r: seq<Frame>)
    ensures Subsequence(r, frames)
    ensures forall f :: multiset(r)[f] == if f.inApp then multiset(frames)[f] else 0
    decreases |frames|
  {
    if frames == [] then []
    else
      var rest := InAppFrames(frames[1..]);
      assert frames == [frames[0]] + frames[1..];
      if frames[0].inApp then
        assert ([frames[0]] + rest)[1..] == rest;
        [frames[0]] + rest
      else rest
  }

  /** `get_relevant_frames`: in in-app mode, the in-app frames (or every frame
      when there are none), discarded altogether when they are less than a
      tenth of the stacktrace. */
  function GetRelevantFrames(s: Strategy, frames: seq<Frame>): (r: seq<Frame>)
    ensures frames == [] ==> r == []
    ensures !InAppOnly(s) ==> r == frames
    ensures Subsequence(r, frames)
    ensures InAppOnly(s) && frames != [] ==>
              var kept := if InAppFrames(frames) != [] then InAppFrames(frames) else frames;
              && (r == [] <==> 10 * |kept| < |frames|)
              && (r != [] ==> r == kept)
  {
    SubsequenceOfItself(frames);
    if frames == [] then []
    else if InAppOnly(s) then
      var kept := if InAppFrames(frames) != [] then InAppFrames(frames) else frames;
      if 10 * |kept| < |frames| then [] else kept
    else frames
  }

  /** Every frame of `frames` is in-app: filtering keeps them all. */
  lemma {:induction false} InAppFramesOfInApp(frames: seq<Frame>)
    requires forall i :: 0 <= i < |frames| ==> frames[i].inApp
    ensures InAppFrames(frames) == frames
    decreases |frames|
  {
    if frames != [] {
      InAppFramesOfInApp(frames[1..]);
    }
  }

  /** The frames left by `InAppFrames` are all in-app. */
  lemma {:induction false} InAppFramesAreInApp(frames: seq<Frame>)
    ensures forall i :: 0 <= i < |InAppFrames(frames)| ==> InAppFrames(frames)[i].inApp
    decreases |frames|
  {
    if frames != [] {
      InAppFramesAreInApp(frames[1..]);
    }
  }

  /** Selecting the relevant frames of the relevant frames changes nothing. */
  lemma GetRelevantFramesIdempotent(s: Strategy, frames: seq<Frame>)
    ensures GetRelevantFrames(s, GetRelevantFrames(s, frames)) == GetRelevantFrames(s, frames)
  {
    var r := GetRelevantFrames(s, frames);
    if InAppOnly(s) && r != [] {
      var kept := InAppFrames(frames);
      if kept != [] {
        InAppFramesAreInApp(frames);
        InAppFramesOfInApp(r);
      } else {
        assert r == frames;
      }
    }
  }

  /** Python 2.7 `unicode.isspace` for one character (Unicode 5.2, where
      U+180E MONGOLIAN VOWEL SEPARATOR is still a space). */
  predicate IsSpace(c: char) {
    || '\U{0009}' <= c <= '\U{000D}'
    || '\U{001C}' <= c <= '\U{0020}'
    || c == '\U{0085}' || c == '\U{00A0}' || c == '\U{1680}' || c == '\U{180E}'
    || '\U{2000}' <= c <= '\U{200A}'
    || c == '\U{2028}' || c == '\U{2029}' || c == '\U{202F}' || c == '\U{205F}' || c == '\U{3000}'
  }

  /** The number of leading whitespace characters. */
  function LeadingSpace(s: string): (n: nat)
    ensures n <= |s|
    ensures forall k :: 0 <= k < n ==> IsSpace(s[k])
    ensures n < |s| ==> !IsSpace(s[n])
    decreases |s|
  {
    if s == [] || !IsSpace(s[0]) then 0 else 1 + LeadingSpace(s[1..])
  }

  /** The number of trailing whitespace characters. */
  function TrailingSpace(s: string): (n: nat)
    ensures n <= |s|
    ensures forall k :: |s| - n <= k < |s| ==> IsSpace(s[k])
    ensures n < |s| ==> !IsSpace(s[|s| - n - 1])
    decreases |s|
  {
    if s == [] || !IsSpace(s[|s| - 1]) then 0 else 1 + TrailingSpace(s[..|s| - 1])
  }

  /** `r` is the slice of `s` starting at `i`, and everything outside it is whitespace. */
  ghost predicate StrippedSlice(s: string, r: string, i: int) {
    && 0 <= i <= |s| - |r| && r == s[i..i + |r|]
    && (forall k :: 0 <= k < i ==> IsSpace(s[k]))
    && (forall k :: i + |r| <= k < |s| ==> IsSpace(s[k]))
  }

  /** Python `str.strip()`: the slice left after removing whitespace at both ends. */
  function Strip(s: string): (r: string)
    ensures r == [] || (!IsSpace(r[0]) && !IsSpace(r[|r| - 1]))
    ensures exists i :: StrippedSlice(s, r, i)
  {
    var i := LeadingSpace(s);
    var n := TrailingSpace(s[i..]);
    StripIsSlice(s, i, n);
    s[i..|s| - n]
  }

  lemma StripIsSlice(s: string, i: nat, n: nat)
    requires i == LeadingSpace(s) && n == TrailingSpace(s[i..])
    ensures i <= |s| - n
    ensures var r := s[i..|s| - n];
            && StrippedSlice(s, r, i)
            && (r == [] || (!IsSpace(r[0]) && !IsSpace(r[|r| - 1])))
  {
    TrailingSpaceOfSuffix(s, i, n);
    var r := s[i..|s| - n];
    if r != [] {
      assert r[0] == s[i];
      assert r[|r| - 1] == s[|s| - n - 1];
    }
  }

  /** The trailing whitespace of a suffix `s[i..]`, read in `s` itself. */
  lemma TrailingSpaceOfSuffix(s: string, i: nat, n: nat)
    requires i <= |s| && n == TrailingSpace(s[i..])
    ensures n <= |s| - i
    ensures forall k :: |s| - n <= k < |s| ==> IsSpace(s[k])
    ensures n < |s| - i ==> !IsSpace(s[|s| - n - 1])
  {
    var rest := s[i..];
    forall k | |s| - n <= k < |s| ensures IsSpace(s[k]) {
      assert s[k] == rest[k - i];
    }
    if n < |rest| {
      assert s[|s| - n - 1] == rest[|rest| - n - 1];
    }
  }

  /** Stripping a stripped string changes nothing. */
  lemma StripIdempotent(s: string)
    ensures Strip(Strip(s)) == Strip(s)
  {
    var r := Strip(s);
    assert LeadingSpace(r) == 0;
    assert TrailingSpace(r[LeadingSpace(r)..]) == 0 by {
      assert r[0..] == r;
    }
    assert r[0..|r|] == r;
  }

  /** `can_use_context_line`: a context line of at most 120 characters, and a
      truthy `function` attribute on the strategy object itself. */
  function CanUseContextLine(s: Strategy, frame: Frame): (r: bool)
    ensures r ==> frame.contextLine.Some? && |frame.contextLine.value| <= 120
    ensures frame.contextLine.Some? && |frame.contextLine.value| <= 120 ==> (r <==> s.hasFunction)
  {
    if frame.contextLine.None? then false
    else if |frame.contextLine.value| > 120 then false
    else s.hasFunction
  }

  /** `remove_filename_outliers`: `posixpath.basename`, the part after the last `/`. */
  function RemoveFilenameOutliers(filename: string): (r: string)
    ensures '/' !in r
    ensures |r| <= |filename| && r == filename[|filename| - |r|..]
    ensures |r| < |filename| ==> filename[|filename| - |r| - 1] == '/'
    decreases |filename|
  {
    if filename == [] then []
    else if filename[|filename| - 1] == '/' then []
    else
      var init := filename[..|filename| - 1];
      var r := RemoveFilenameOutliers(init);
      assert filename == init + [filename[|filename| - 1]];
      r + [filename[|filename| - 1]]
  }

  /** A name without a `/` is its own base name, so taking the base name twice
      is taking it once. */
  lemma {:induction false} RemoveFilenameOutliersOfBaseName(filename: string)
    requires '/' !in filename
    ensures RemoveFilenameOutliers(filename) == filename
    decreases |filename|
  {
    if filename != [] {
      var init := filename[..|filename| - 1];
      var last := filename[|filename| - 1];
      assert last != '/' by {
        assert last in filename;
      }
      assert RemoveFilenameOutliers(init) == init by {
        assert '/' !in init by {
          forall k | 0 <= k < |init| ensures init[k] != '/' { assert init[k] == filename[k]; }
        }
        RemoveFilenameOutliersOfBaseName(init);
      }
      assert filename == init + [last];
    }
  }

  lemma RemoveFilenameOutliersIdempotent(filename: string)
    ensures RemoveFilenameOutliers(RemoveFilenameOutliers(filename)) == RemoveFilenameOutliers(filename)
  {
    RemoveFilenameOutliersOfBaseName(RemoveFilenameOutliers(filename));
  }

  // ---------------------------------------------------------------------------
  // The hasher
  // ---------------------------------------------------------------------------

  datatype SingleException = SingleException(excType: Option<string>, stacktrace: Option<Stacktrace>)

  /** The `sentry.interfaces.Exception` interface: a list of exceptions, or one. */
  datatype ExceptionInterface = Exceptions(values: seq<SingleException>) | Single(exc: SingleException)

  /** The interfaces handed to a nested strategy. */
  datatype Payload = ExceptionPayload(exc: SingleException) | StacktracePayload(stacktrace: Option<Stacktrace>)

  /** The names `hash_frame` contributes values under. */
  datatype ValueName = Module | Filename | Sourcecode | Function

  datatype Contribution = Value(name: ValueName, value: string)
                        | Nested(identifier: string, preferredVersion: string, payload: Payload)

  /** The grouping hasher, seen as the sequence of contributions it received. */
  class Hasher {
    var contributions: seq<Contribution>

    constructor ()
      ensures contributions == []
    {
      contributions := [];
    }

    /** `did_contribute`. */
    function DidContribute(): (r: bool)
      reads this
      ensures r <==> contributions != []
    {
      |contributions| > 0
    }

    method ContributeValue(name: ValueName, value: string)
      modifies this
      ensures contributions == old(contributions) + [Value(name, value)]
    {
      contributions := contributions + [Value(name, value)];
    }

    method ContributeNested(identifier: string, preferredVersion: string, payload: Payload)
      modifies this
      ensures contributions == old(contributions) + [Nested(identifier, preferredVersion, payload)]
    {
      contributions := contributions + [Nested(identifier, preferredVersion, payload)];
    }
  }

  /** The location part of `hash_frame`: the module, else the file's base name. */
  function LocationContributions(frame: Frame): (r: seq<Contribution>)
    ensures |r| <= 1
    ensures |r| == 1 <==> Truthy(frame.moduleName) || Truthy(frame.filename)
    ensures |r| == 1 ==> r[0].Value? && (r[0].name == Module <==> Truthy(frame.moduleName))
  {
    if Truthy(frame.moduleName) then [Value(Module, frame.moduleName.value)]
    else if Truthy(frame.filename) then [Value(Filename, RemoveFilenameOutliers(frame.filename.value))]
    else []
  }

  /** The source-code part of `hash_frame`: the stripped context line, when usable. */
  function SourceContributions(s: Strategy, frame: Frame): (r: seq<Contribution>)
    ensures |r| <= 1
    ensures |r| == 1 <==> CanUseContextLine(s, frame)
    ensures |r| == 1 ==> r[0].Value? && r[0].name == Sourcecode && |r[0].value| <= |frame.contextLine.value|
  {
    if CanUseContextLine(s, frame) then [Value(Sourcecode, Strip(frame.contextLine.value))] else []
  }

  /** The function part of `hash_frame`, given whether the hasher has been
      contributed to by this point: the symbol, else the function. */
  function NameContributions(frame: Frame, contributed: bool): (r: seq<Contribution>)
    ensures |r| <= 1
    ensures |r| == 1 <==> contributed && (Truthy(frame.symbol) || Truthy(frame.functionName))
    ensures |r| == 1 ==> r[0].Value? && r[0].name == Function
  {
    if !contributed then []
    else if Truthy(frame.symbol) then [Value(Function, frame.symbol.value)]
    else if Truthy(frame.functionName) then [Value(Function, frame.functionName.value)]
    else []
  }

  /** What `hash_frame` contributes for one frame, given whether the hasher had
      been contributed to before. */
  function FrameContributions(s: Strategy, frame: Frame, contributed: bool): seq<Contribution> {
    var head := LocationContributions(frame) + SourceContributions(s, frame);
    head + NameContributions(frame, contributed || |head| > 0)
  }

  /** A module is contributed in preference to a filename, and comes first. */
  lemma ModuleBeforeFilename(s: Strategy, frame: Frame, contributed: bool)
    ensures var c := FrameContributions(s, frame, contributed);
            Truthy(frame.moduleName) ==> c != [] && c[0] == Value(Module, frame.moduleName.value)
                                         && forall i :: 0 <= i < |c| ==> c[i].name != Filename
  {
  }

  /** A function name is contributed only after something else was. */
  lemma NameNeedsEarlierContribution(s: Strategy, frame: Frame)
    requires !Truthy(frame.moduleName) && !Truthy(frame.filename) && !CanUseContextLine(s, frame)
    ensures FrameContributions(s, frame, false) == []
  {
  }

  /** Once something was contributed, the symbol is preferred over the function. */
  lemma SymbolBeforeFunction(s: Strategy, frame: Frame, contributed: bool)
    requires contributed || Truthy(frame.moduleName) || Truthy(frame.filename) || CanUseContextLine(s, frame)
    requires Truthy(frame.symbol) || Truthy(frame.functionName)
    ensures var c := FrameContributions(s, frame, contributed);
            c != [] && c[|c| - 1] == Value(Function, if Truthy(frame.symbol) then frame.symbol.value
                                                        else frame.functionName.value)
  {
  }

  /** Hashing frames one after another, each with `step`, which is told
      whether the hasher had been contributed to before that frame. */
  function FoldFrames(step: (Frame, bool) -> seq<Contribution>, frames: seq<Frame>, contributed: bool)
    : seq<Contribution>
    decreases |frames|
  {
    if frames == [] then []
    else
      var init := FoldFrames(step, frames[..|frames| - 1], contributed);
      init + step(frames[|frames| - 1], contributed || |init| > 0)
  }

  lemma FoldFramesStep(step: (Frame, bool) -> seq<Contribution>, frames: seq<Frame>, i: nat, contributed: bool)
    requires i < |frames|
    ensures var done := FoldFrames(step, frames[..i], contributed);
            FoldFrames(step, frames[..i + 1], contributed) == done + step(frames[i], contributed || |done| > 0)
  {
    assert frames[..i + 1][..i] == frames[..i];
  }

  /** From an empty hasher, a run of frames contributes nothing exactly when
      no frame would contribute anything on its own. */
  lemma {:induction false} FoldFramesNothing(step: (Frame, bool) -> seq<Contribution>, frames: seq<Frame>)
    ensures FoldFrames(step, frames, false) == [] <==> forall i :: 0 <= i < |frames| ==> step(frames[i], false) == []
    decreases |frames|
  {
    if frames != [] {
      var init := frames[..|frames| - 1];
      FoldFramesNothing(step, init);
      assert forall i :: 0 <= i < |init| ==> init[i] == frames[i];
    }
  }

  /** What hashing the frames one after another contributes. */
  function FramesContributions(s: Strategy, frames: seq<Frame>, contributed: bool): seq<Contribution> {
    FoldFrames((frame, c) => FrameContributions(s, frame, c), frames, contributed)
  }

  lemma FramesContributionsStep(s: Strategy, frames: seq<Frame>, i: nat, contributed: bool)
    requires i < |frames|
    ensures var done := FramesContributions(s, frames[..i], contributed);
            FramesContributions(s, frames[..i + 1], contributed)
              == done + FrameContributions(s, frames[i], contributed || |done| > 0)
  {
    FoldFramesStep((frame, c) => FrameContributions(s, frame, c), frames, i, contributed);
  }

  /** Starting from an empty hasher, hashing frames contributes nothing exactly
      when no frame on its own would contribute anything. */
  lemma FramesContributeNothing(s: Strategy, frames: seq<Frame>)
    ensures FramesContributions(s, frames, false) == [] <==>
              forall i :: 0 <= i < |frames| ==> FrameContributions(s, frames[i], false) == []
  {
    FoldFramesNothing((frame, c) => FrameContributions(s, frame, c), frames);
  }

  /** One frame, on JavaScript, with a function, whose `is_url()` holds:
      not worth hashing. */
  predicate StackInvalid(frames: seq<Frame>, platform: string) {
    && |frames| == 1
    && EffectivePlatform(frames[0], platform) == "javascript"
    && Truthy(frames[0].functionName)
    && frames[0].isUrl
  }

  /** What the stacktrace strategy's `hash_interfaces` contributes. */
  function StacktraceContributions(s: Strategy, stacktrace: Stacktrace, platform: string, contributed: bool)
    : (r: seq<Contribution>)
    ensures stacktrace.frames == [] ==> r == []
    ensures StackInvalid(stacktrace.frames, platform) ==> r == []
  {
    if stacktrace.frames == [] || StackInvalid(stacktrace.frames, platform) then []
    else FramesContributions(s, GetRelevantFrames(s, stacktrace.frames), contributed)
  }

  /** `hash_frame`, in its three stages: location, source line, function. */
  method HashFrame(s: Strategy, frame: Frame, platform: string, hasher: Hasher)
    modifies hasher
    ensures hasher.contributions == old(hasher.contributions) + FrameContributions(s, frame, old(hasher.DidContribute()))
  {
    ghost var before := hasher.contributions;
    var effectivePlatform := EffectivePlatform(frame, platform);
    HashLocation(frame, hasher);
    HashSourceLine(s, frame, hasher);
    ghost var head := LocationContributions(frame) + SourceContributions(s, frame);
    assert hasher.contributions == before + head;
    HashName(frame, hasher);
    assert |before| > 0 || |head| > 0 <==> |hasher.contributions| > 0 by {
      assert |hasher.contributions| >= |before| + |head|;
    }
  }

  /** The module, else the file's base name. */
  method HashLocation(frame: Frame, hasher: Hasher)
    modifies hasher
    ensures hasher.contributions == old(hasher.contributions) + LocationContributions(frame)
  {
    if Truthy(frame.moduleName) {
      hasher.ContributeValue(Module, frame.moduleName.value);
    } else if Truthy(frame.filename) {
      hasher.ContributeValue(Filename, RemoveFilenameOutliers(frame.filename.value));
    }
  }

  /** The stripped context line, when it may be used. */
  method HashSourceLine(s: Strategy, frame: Frame, hasher: Hasher)
    modifies hasher
    ensures hasher.contributions == old(hasher.contributions) + SourceContributions(s, frame)
  {
    if CanUseContextLine(s, frame) {
      hasher.ContributeValue(Sourcecode, Strip(frame.contextLine.value));
    }
  }

  /** Nothing unless the hasher was contributed to; then the symbol, else the function. */
  method HashName(frame: Frame, hasher: Hasher)
    modifies hasher
    ensures hasher.contributions == old(hasher.contributions) + NameContributions(frame, old(hasher.DidContribute()))
  {
    if !hasher.DidContribute() {
      return;
    } else if Truthy(frame.symbol) {
      hasher.ContributeValue(Function, frame.symbol.value);
    } else if Truthy(frame.functionName) {
      hasher.ContributeValue(Function, frame.functionName.value);
    }
  }

  /** The stacktrace strategy's `hash_interfaces`. */
  method HashStacktrace(s: Strategy, stacktrace: Stacktrace, platform: string, hasher: Hasher)
    modifies hasher
    ensures hasher.contributions ==
              old(hasher.contributions) + StacktraceContributions(s, stacktrace, platform, old(hasher.DidContribute()))
  {
    var frames := stacktrace.frames;
    if frames == [] {
      return;
    }
    var firstFrame := frames[0];
    var stackInvalid := |frames| == 1 && EffectivePlatform(firstFrame, platform) == "javascript"
                        && Truthy(firstFrame.functionName) && firstFrame.isUrl;
    if stackInvalid {
      return;
    }
    var relevant := GetRelevantFrames(s, frames);
    HashFrames(s, relevant, platform, hasher);
  }

  /** One turn of the loop over the frames keeps the hasher at the
      contributions of the frames hashed so far. */
  lemma HashFramesStep(s: Strategy, frames: seq<Frame>, i: nat, start: seq<Contribution>,
                       before: seq<Contribution>, after: seq<Contribution>)
    requires i < |frames|
    requires before == start + FramesContributions(s, frames[..i], |start| > 0)
    requires after == before + FrameContributions(s, frames[i], |before| > 0)
    ensures after == start + FramesContributions(s, frames[..i + 1], |start| > 0)
  {
    var c := |start| > 0;
    var done := FramesContributions(s, frames[..i], c);
    var next := FrameContributions(s, frames[i], c || |done| > 0);
    assert after == before + next by {
      assert (|before| > 0) == (c || |done| > 0) by {
        assert |before| == |start| + |done|;
      }
    }
    assert FramesContributions(s, frames[..i + 1], c) == done + next by {
      FramesContributionsStep(s, frames, i, c);
    }
    Reassociate(start, done, next, before, after, FramesContributions(s, frames[..i + 1], c));
  }

  lemma Reassociate(start: seq<Contribution>, done: seq<Contribution>, next: seq<Contribution>,
                    before: seq<Contribution>, after: seq<Contribution>, total: seq<Contribution>)
    requires before == start + done && after == before + next && total == done + next
    ensures after == start + total
  {
  }

  /** The loop of `hash_interfaces` over the relevant frames. */
  method HashFrames(s: Strategy, frames: seq<Frame>, platform: string, hasher: Hasher)
    modifies hasher
    ensures hasher.contributions ==
              old(hasher.contributions) + FramesContributions(s, frames, old(hasher.DidContribute()))
  {
    ghost var start := hasher.contributions;
    var i := 0;
    while i < |frames|
      invariant 0 <= i <= |frames|
      invariant hasher.contributions == start + FramesContributions(s, frames[..i], |start| > 0)
    {
      ghost var before := hasher.contributions;
      HashFrame(s, frames[i], platform, hasher);
      HashFramesStep(s, frames, i, start, before, hasher.contributions);
      i := i + 1;
    }
    assert frames[..i] == frames;
  }

  /** The exception strategy's `hash_interfaces`: one nested contribution per
      exception of a list, under this strategy's identifier and version; one
      nested stacktrace contribution for a single exception.  An empty list
      fails on `values[0]` before anything is contributed. */
  method HashException(s: Strategy, exc: ExceptionInterface, hasher: Hasher) returns (ok: bool)
    modifies hasher
    ensures ok <==> !(exc.Exceptions? && exc.values == [])
    ensures !ok ==> hasher.contributions == old(hasher.contributions)
    ensures exc.Single? ==>
              hasher.contributions == old(hasher.contributions)
                                      + [Nested(StracktraceStrategyId(s), "latest", StacktracePayload(exc.exc.stacktrace))]
    ensures exc.Exceptions? ==>
              && |hasher.contributions| == |old(hasher.contributions)| + |exc.values|
              && hasher.contributions[..|old(hasher.contributions)|] == old(hasher.contributions)
              && forall i :: 0 <= i < |exc.values| ==>
                   hasher.contributions[|old(hasher.contributions)| + i]
                     == Nested(s.identifier, s.version, ExceptionPayload(exc.values[i]))
  {
    if exc.Exceptions? {
      if |exc.values| >= 1 {
        var exceptions := exc.values;
        var i := 0;
        while i < |exceptions|
          invariant 0 <= i <= |exceptions|
          invariant |hasher.contributions| == |old(hasher.contributions)| + i
          invariant hasher.contributions[..|old(hasher.contributions)|] == old(hasher.contributions)
          invariant forall j :: 0 <= j < i ==>
                      hasher.contributions[|old(hasher.contributions)| + j]
                        == Nested(s.identifier, s.version, ExceptionPayload(exceptions[j]))
        {
          hasher.ContributeNested(s.identifier, s.version, ExceptionPayload(exceptions[i]));
          i := i + 1;
        }
        ok := true;
      } else {
        // `exc.values[0]` on an empty list raises IndexError.
        ok := false;
      }
    } else {
      hasher.ContributeNested(StracktraceStrategyId(s), "latest", StacktracePayload(exc.exc.stacktrace));
      ok := true;
    }
  }
}
