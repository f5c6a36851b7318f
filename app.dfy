/** The state held by the App component of App.tsx and its handlers, as one
    sequential store. Each call to an external service is replaced by a
    parameter that gives the service's answer; each handler returns what it
    would have sent to the service (`None` when it makes no call). */
module App {
  import opened Types
  import opened Text
  import opened Items

  class Store {
    var articleText: string
    var images: seq<GeneratedImage>
    var error: Option<string>

    /** Between two handler calls every item is settled (see `Items.Settled`). */
    ghost predicate Valid()
      reads this
    {
      AllSettled(images)
    }

    /** The initial state: no article, no items, no session error. */
    constructor ()
      ensures articleText == "" && images == [] && error == None
      ensures Valid()
    {
      articleText := "";
      images := [];
      error := None;
    }

    /** Some item is waiting to be generated. */
    function HasPendingImages(): (r: bool)
      reads this
      ensures r <==> exists i | 0 <= i < |images| :: images[i].status == Pending
    {
      AnyWithStatus(images, Pending)
    }

    /** Some item is being generated. */
    function IsGenerating(): (r: bool)
      reads this
      ensures r <==> exists i | 0 <= i < |images| :: images[i].status == Loading
      ensures Valid() ==> !r
    {
      SettledHasNoLoadingOrCancelled(images);
      AnyWithStatus(images, Loading)
    }

    /** Start over: no article, no items, no session error. */
    method Reset()
      modifies this
      ensures articleText == "" && images == [] && error == None
      ensures Valid()
    {
      articleText := "";
      images := [];
      error := None;
    }

    /** The article text area. */
    method SetArticleText(text: string)
      modifies this
      ensures articleText == text
      ensures images == old(images) && error == old(error)
      ensures old(Valid()) ==> Valid()
    {
      articleText := text;
    }

    /** Edits the prompt of item `index` and nothing else. The source writes
        through `newImages[index]`, which throws for an index outside the
        list, so the index must be in range. */
    method SetPrompt(index: nat, newPrompt: string)
      requires index < |images|
      modifies this
      ensures images == old(images)[index := old(images)[index].(prompt := newPrompt)]
      ensures |images| == |old(images)|
      ensures images[index].prompt == newPrompt
      ensures forall j | 0 <= j < |images| :: images[j].status == old(images)[j].status
      ensures forall j | 0 <= j < |images| && j != index :: images[j] == old(images)[j]
      ensures articleText == old(articleText) && error == old(error)
      ensures old(Valid()) ==> Valid()
    {
      var newImages := images;
      newImages := newImages[index := newImages[index].(prompt := newPrompt)];
      images := newImages;
    }

    /** Generates item `index` when it exists and is `Pending` or `Error`;
        `outcome` is the image service's answer. Returns the prompt sent to
        the service, or `None` when the call is a no-op. */
    method GenerateOne(index: int, outcome: Outcome<string>) returns (request: Option<string>)
      modifies this
      ensures request.None? <==> !(0 <= index < |old(images)| && CanGenerate(old(images)[index].status))
      ensures request.None? ==> images == old(images) && error == old(error)
      ensures request.Some? ==>
        && request.value == old(images)[index].prompt
        && images == old(images)[index := Generated(old(images)[index], outcome)]
        && error == ErrorAfter(outcome, old(error))
      ensures articleText == old(articleText)
      ensures old(Valid()) ==> Valid()
    {
      if !(0 <= index < |images|) || !CanGenerate(images[index].status) {
        return None;
      }
      var imageToGenerate := images[index];
      images := images[index := images[index].(status := Loading)];
      // The service is awaited here; `outcome` is what it answered.
      request := Some(imageToGenerate.prompt);
      match outcome {
        case Ok(url) =>
          images := images[index := images[index].(imageUrl := url, status := Success)];
        case Err(failure) =>
          images := images[index := images[index].(error := Some(GenerationFailed), status := Error)];
          if IsCritical(Message(failure)) {
            error := Some(CriticalError);
          }
      }
    }

    /** Visits the indices below the length at call time in ascending order,
        re-reading each item's status and generating it only when it is
        `Pending`; `respond(i)` is the image service's answer for item `i`.
        Returns the visited indices that were generated, in order, and the
        prompt sent to the image service for each of them. */
    method GenerateAll(respond: nat -> Outcome<string>) returns (generated: seq<nat>, requests: seq<string>)
      modifies this
      ensures generated == PendingIndices(old(images), |old(images)|)
      ensures |requests| == |generated|
      ensures forall k | 0 <= k < |requests| :: generated[k] < |old(images)| && requests[k] == old(images)[generated[k]].prompt
      ensures images == GeneratedBelow(old(images), respond, |old(images)|)
      ensures error == if CriticalBelow(old(images), respond, |old(images)|) then Some(CriticalError) else old(error)
      ensures articleText == old(articleText)
      ensures old(Valid()) ==> Valid()
    {
      var n := |images|;
      generated := [];
      requests := [];
      for i := 0 to n
        invariant |images| == n == |old(images)|
        invariant images == GeneratedBelow(old(images), respond, i)
        invariant generated == PendingIndices(old(images), i)
        invariant |requests| == |generated|
        invariant forall k | 0 <= k < |requests| :: generated[k] < |old(images)| && requests[k] == old(images)[generated[k]].prompt
        invariant error == if CriticalBelow(old(images), respond, i) then Some(CriticalError) else old(error)
        invariant articleText == old(articleText)
      {
        GeneratedBelowAt(old(images), respond, i, i);
        var shouldGenerate := i < |images| && images[i].status == Pending;
        if shouldGenerate {
          var request := GenerateOne(i, respond(i));
          generated := generated + [i];
          requests := requests + [request.value];
        }
      }
      if old(Valid()) {
        GeneratedBelowSettled(old(images), respond, n);
      }
    }

    /** Asks the prompt service for prompts about the article; `outcome` is
        its answer. A blank article only sets the "paste an article" error.
        Otherwise the list is cleared and then holds one fresh item per
        returned prompt, or stays empty with the service's message as the
        session error. Returns the article sent to the service. */
    method GeneratePrompts(outcome: Outcome<seq<string>>) returns (request: Option<string>)
      modifies this
      ensures AllSpace(articleText) ==>
        request == None && images == old(images) && error == Some(ArticleMissing)
      ensures !AllSpace(articleText) ==>
        && request == Some(articleText)
        && images == (if outcome.Ok? then FreshItems(outcome.value) else [])
        && error == (if outcome.Ok? then None else Some(Message(outcome.failure)))
      ensures articleText == old(articleText)
      ensures old(Valid()) ==> Valid()
    {
      TrimEmptyIffBlank(articleText);
      if Trim(articleText) == [] {
        error := Some(ArticleMissing);
        return None;
      }
      request := Some(articleText);
      // The source clears the error and the list before awaiting the
      // service; no other handler runs in between here, so only the final
      // values are written.
      if outcome.Ok? {
        FreshItemsSettled(outcome.value);
        images := FreshItems(outcome.value);
        error := None;
      } else {
        images := [];
        error := Some(Message(outcome.failure));
      }
    }

    /** Asks the prompt service for further prompts, passing the prompts
        already in the list; `outcome` is its answer. A blank article makes
        this a no-op. Otherwise fresh items for the returned prompts are
        appended after the existing ones, or the list is kept and the session
        error carries the service's message behind a fixed prefix. Returns the
        article and the existing prompts sent to the service. */
    method GenerateMore(outcome: Outcome<seq<string>>) returns (request: Option<(string, seq<string>)>)
      modifies this
      ensures AllSpace(articleText) ==>
        request == None && images == old(images) && error == old(error)
      ensures !AllSpace(articleText) ==>
        && request == Some((articleText, Prompts(old(images))))
        && images == old(images) + (if outcome.Ok? then FreshItems(outcome.value) else [])
        && error == (if outcome.Ok? then None else Some(MorePromptsFailed + Message(outcome.failure)))
      ensures articleText == old(articleText)
      ensures old(Valid()) ==> Valid()
    {
      TrimEmptyIffBlank(articleText);
      if Trim(articleText) == [] {
        return None;
      }
      error := None;
      var currentPrompts := Prompts(images);
      request := Some((articleText, currentPrompts));
      match outcome {
        case Ok(prompts) =>
          var newImages := FreshItems(prompts);
          FreshItemsSettled(prompts);
          images := images + newImages;
        case Err(failure) =>
          error := Some(MorePromptsFailed + Message(failure));
      }
    }
  }
}
