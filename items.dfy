/** The pure side of the item store in App.tsx: what the external services can
    answer, how one generation changes an item, what a batch generation does to
    the whole list, and the invariant that every handler keeps. The `App`
    module's `Store` is proved against these functions. */
module Items {
  import opened Types
  import opened Text

  /** What a failed service call threw: an `Error` object carrying a message,
      or any other value. */
  datatype Failure = Thrown(message: string) | ThrownNonError

  /** The answer of an external service call: its value, or what it threw. */
  datatype Outcome<+T> = Ok(value: T) | Err(failure: Failure)

  const UnknownError := "An unknown error occurred."
  const GenerationFailed := "Generation Failed"
  const CriticalError := "A critical error occurred (quota limit or API key issue). Some images may have failed."
  const ArticleMissing := "Please paste an article before generating prompts."
  const MorePromptsFailed := "Failed to generate more prompts: "

  /** The text a `catch` block reads from what was thrown. */
  function Message(f: Failure): (r: string)
    ensures f.Thrown? ==> r == f.message
    ensures f.ThrownNonError? ==> r == UnknownError
  {
    match f
    case Thrown(m) => m
    case ThrownNonError => UnknownError
  }

  /** The failure text names an authentication or quota problem. */
  predicate IsCritical(message: string)
    ensures IsCritical(message) <==>
      (exists i :: OccursAt(message, "API key", i)) || (exists i :: OccursAt(message, "quota", i))
  {
    Includes(message, "API key") || Includes(message, "quota")
  }

  /** An image-service answer that also raises the session-level notice. */
  predicate FailsCritically(o: Outcome<string>) {
    o.Err? && IsCritical(Message(o.failure))
  }

  /** The statuses from which a single generation starts. */
  predicate CanGenerate(s: ImageStatus) {
    s == Pending || s == Error
  }

  /** `Array.prototype.some` over the statuses of the items. */
  function AnyWithStatus(imgs: seq<GeneratedImage>, s: ImageStatus): (r: bool)
    ensures r <==> exists i | 0 <= i < |imgs| :: imgs[i].status == s
  {
    if imgs == [] then false
    else
      var rest := AnyWithStatus(imgs[1..], s);
      assert forall i | 1 <= i < |imgs| :: imgs[i] == imgs[1..][i - 1];
      imgs[0].status == s || rest
  }

  /** One fresh `Pending` item per prompt, in the order of the prompts. */
  function FreshItems(prompts: seq<string>): (r: seq<GeneratedImage>)
    ensures |r| == |prompts|
    ensures forall i | 0 <= i < |r| ::
      r[i].prompt == prompts[i] && r[i].imageUrl == "" && r[i].status == Pending && r[i].error == None
  {
    if prompts == [] then [] else [NewImage(prompts[0])] + FreshItems(prompts[1..])
  }

  /** The prompts of the items, in order. */
  function Prompts(imgs: seq<GeneratedImage>): (r: seq<string>)
    ensures |r| == |imgs|
    ensures forall i | 0 <= i < |r| :: r[i] == imgs[i].prompt
  {
    if imgs == [] then [] else [imgs[0].prompt] + Prompts(imgs[1..])
  }

  /** Reading the prompts back from fresh items gives the prompts they were
      made from. */
  lemma {:induction false} PromptsOfFreshItems(prompts: seq<string>)
    ensures Prompts(FreshItems(prompts)) == prompts
  {
    if prompts != [] {
      PromptsOfFreshItems(prompts[1..]);
    }
  }

  /** The item after one generation whose service answer is `o`: the old
      record with the returned URL and `Success`, or with the generic failure
      text and `Error`. Every other field is kept, so an earlier failure text
      survives a later success. */
  function Generated(img: GeneratedImage, o: Outcome<string>): (r: GeneratedImage)
    ensures r.prompt == img.prompt
    ensures r.status == (if o.Ok? then Success else Error)
    ensures o.Ok? ==> r.imageUrl == o.value && r.error == img.error
    ensures o.Err? ==> r.imageUrl == img.imageUrl && r.error == Some(GenerationFailed)
  {
    match o
    case Ok(url) => img.(imageUrl := url, status := Success)
    case Err(_) => img.(error := Some(GenerationFailed), status := Error)
  }

  /** The session error after one generation whose service answer is `o`. */
  function ErrorAfter(o: Outcome<string>, e: Option<string>): (r: Option<string>)
    ensures r == Some(CriticalError) || r == e
    ensures r != e ==> o.Err? && IsCritical(Message(o.failure))
    ensures o.Ok? ==> r == e
    ensures FailsCritically(o) ==> r == Some(CriticalError)
  {
    if FailsCritically(o) then Some(CriticalError) else e
  }

  /** The list after a batch generation has visited the indices below `k`
      in ascending order: each visited item that was `Pending` is replaced by
      its generation with the answer for its index. */
  function GeneratedBelow(imgs: seq<GeneratedImage>, respond: nat -> Outcome<string>, k: nat): (r: seq<GeneratedImage>)
    requires k <= |imgs|
    ensures |r| == |imgs|
  {
    if k == 0 then imgs
    else
      var before := GeneratedBelow(imgs, respond, k - 1);
      if imgs[k - 1].status == Pending then before[k - 1 := Generated(imgs[k - 1], respond(k - 1))] else before
  }

  /** Item `j` after the batch has visited the indices below `k`: generated
      with its own answer when `j` was visited and was `Pending`, and
      otherwise as it was. */
  lemma {:induction false} GeneratedBelowAt(imgs: seq<GeneratedImage>, respond: nat -> Outcome<string>, k: nat, j: nat)
    requires k <= |imgs| && j < |imgs|
    ensures GeneratedBelow(imgs, respond, k)[j] ==
      if j < k && imgs[j].status == Pending then Generated(imgs[j], respond(j)) else imgs[j]
  {
    if k > 0 {
      GeneratedBelowAt(imgs, respond, k - 1, j);
    }
  }

  /** Item `j` exists, is `Pending`, and its answer is a critical failure. */
  predicate PendingCritical(imgs: seq<GeneratedImage>, respond: nat -> Outcome<string>, j: nat) {
    j < |imgs| && imgs[j].status == Pending && FailsCritically(respond(j))
  }

  /** Some item below `k` was `Pending` and its answer was a critical
      failure: the batch has raised the session-level notice by index `k`. */
  function CriticalBelow(imgs: seq<GeneratedImage>, respond: nat -> Outcome<string>, k: nat): bool
    requires k <= |imgs|
  {
    k > 0 && (CriticalBelow(imgs, respond, k - 1) || PendingCritical(imgs, respond, k - 1))
  }

  /** The batch has raised the notice by index `k` exactly when some item
      below `k` was `Pending` and failed critically. */
  lemma {:induction false} CriticalBelowMeans(imgs: seq<GeneratedImage>, respond: nat -> Outcome<string>, k: nat)
    requires k <= |imgs|
    ensures CriticalBelow(imgs, respond, k) <==> exists j: nat | j < k :: PendingCritical(imgs, respond, j)
  {
    if k > 0 {
      CriticalBelowMeans(imgs, respond, k - 1);
      if PendingCritical(imgs, respond, k - 1) {
        assert k - 1 < k;
      } else if CriticalBelow(imgs, respond, k - 1) {
        var j: nat :| j < k - 1 && PendingCritical(imgs, respond, j);
        assert j < k;
      } else {
        forall j: nat | j < k
          ensures !PendingCritical(imgs, respond, j)
        {
          if j < k - 1 {
            assert !PendingCritical(imgs, respond, j);
          }
        }
      }
    }
  }

  /** The indices below `k` whose item is `Pending`, in ascending order: the
      items a batch generation hands to the image service. */
  function PendingIndices(imgs: seq<GeneratedImage>, k: nat): (r: seq<nat>)
    requires k <= |imgs|
    ensures forall x: nat :: x in r <==> x < k && imgs[x].status == Pending
    ensures forall a, b | 0 <= a < b < |r| :: r[a] < r[b]
  {
    if k == 0 then []
    else
      var before := PendingIndices(imgs, k - 1);
      assert forall a | 0 <= a < |before| :: before[a] in before;
      assert forall a | 0 <= a < |before| :: before[a] < k - 1;
      before + if imgs[k - 1].status == Pending then [k - 1] else []
  }

  /** The state an item can be in between two handler calls: never `Loading`
      or `Cancelled`, a `Pending` item has no image and no error, and an
      `Error` item carries the generic failure text. */
  predicate Settled(img: GeneratedImage)
    ensures Settled(img) ==> img.status != Loading && img.status != Cancelled
  {
    match img.status
    case Pending => img.imageUrl == "" && img.error == None
    case Error => img.error == Some(GenerationFailed)
    case Success => true
    case Loading => false
    case Cancelled => false
  }

  predicate AllSettled(imgs: seq<GeneratedImage>) {
    forall i | 0 <= i < |imgs| :: Settled(imgs[i])
  }

  /** A settled list has no item in flight and no cancelled item. */
  lemma SettledHasNoLoadingOrCancelled(imgs: seq<GeneratedImage>)
    ensures AllSettled(imgs) ==> !AnyWithStatus(imgs, Loading) && !AnyWithStatus(imgs, Cancelled)
  {
  }

  /** Fresh items are settled. */
  lemma FreshItemsSettled(prompts: seq<string>)
    ensures AllSettled(FreshItems(prompts))
  {
  }

  /** A batch generation keeps a settled list settled. */
  lemma GeneratedBelowSettled(imgs: seq<GeneratedImage>, respond: nat -> Outcome<string>, k: nat)
    requires k <= |imgs| && AllSettled(imgs)
    ensures AllSettled(GeneratedBelow(imgs, respond, k))
  {
    forall j | 0 <= j < |imgs|
      ensures Settled(GeneratedBelow(imgs, respond, k)[j])
    {
      GeneratedBelowAt(imgs, respond, k, j);
    }
  }

  /** A batch over `[pending, success, pending]` calls the image service for
      indices 0 and 2, in that order, and leaves index 1 alone. */
  lemma BatchExample(respond: nat -> Outcome<string>)
    ensures var imgs := [NewImage("A"), GeneratedImage("B", "b.png", Success, None), NewImage("C")];
      PendingIndices(imgs, 3) == [0, 2] && GeneratedBelow(imgs, respond, 3)[1] == imgs[1]
  {
    var imgs := [NewImage("A"), GeneratedImage("B", "b.png", Success, None), NewImage("C")];
    assert PendingIndices(imgs, 2) == [0];
    GeneratedBelowAt(imgs, respond, 3, 1);
  }

  /** A failure whose message mentions the quota raises the session notice. */
  lemma CriticalExample()
    ensures FailsCritically(Err(Thrown("quota exceeded")))
  {
    assert OccursAt("quota exceeded", "quota", 0);
  }
}
