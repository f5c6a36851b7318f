/** The two pieces of logic in components/ImageCard.tsx: the file name offered
    when a generated image is downloaded, and which actions the card offers for
    each status of its item. */
module ImageCard {
  import opened Types
  import opened Text
  import Items

  /** Length at which the slug is cut (`slice(0, 50)`). */
  const SlugLimit := 50

  /** Name used when nothing of the prompt survives the clean-up. */
  const FallbackName := "generated-image"

  /** `toLowerCase` on one character, for the ASCII letters. */
  function LowerChar(c: char): (r: char)
    ensures !('A' <= r <= 'Z')
    ensures 'A' <= c <= 'Z' ==> 'a' <= r <= 'z' && r as int - 'a' as int == c as int - 'A' as int
    ensures !('A' <= c <= 'Z') ==> r == c
  {
    if 'A' <= c <= 'Z' then (c as int - 'A' as int + 'a' as int) as char else c
  }

  /** `toLowerCase`: each upper-case ASCII letter becomes its lower-case
      letter, and every other character is kept. */
  function Lower(s: string): (r: string)
    ensures |r| == |s|
    ensures forall i | 0 <= i < |r| :: !('A' <= r[i] <= 'Z')
    ensures forall i | 0 <= i < |r| :: 'A' <= s[i] <= 'Z' ==> r[i] as int == s[i] as int - 'A' as int + 'a' as int
    ensures forall i | 0 <= i < |r| :: !('A' <= s[i] <= 'Z') ==> r[i] == s[i]
  {
    seq(|s|, i requires 0 <= i < |s| => LowerChar(s[i]))
  }

  predicate IsAlnum(c: char) {
    'a' <= c <= 'z' || '0' <= c <= '9'
  }

  /** The characters that `replace(/[^a-z0-9\s]/g, '')` keeps. */
  predicate IsKept(c: char) {
    IsAlnum(c) || IsSpace(c)
  }

  /** The characters a slug is made of. */
  predicate IsSlugChar(c: char) {
    IsAlnum(c) || c == '-'
  }

  predicate AllKept(s: string) {
    forall i | 0 <= i < |s| :: IsKept(s[i])
  }

  predicate AllSlugChars(s: string) {
    forall i | 0 <= i < |s| :: IsSlugChar(s[i])
  }

  /** No two adjacent hyphens. */
  predicate NoDoubleDash(s: string) {
    forall i | 0 <= i < |s| - 1 :: s[i] != '-' || s[i + 1] != '-'
  }

  /** `replace(/[^a-z0-9\s]/g, '')`: drops every character outside the kept
      class and keeps the others in order. */
  function StripUnkept(s: string): (r: string)
    ensures |r| <= |s|
    ensures AllKept(r)
  {
    if s == [] then []
    else (if IsKept(s[0]) then [s[0]] else []) + StripUnkept(s[1..])
  }

  /** `replace(/\s+/g, '-')`: every maximal run of whitespace becomes one
      hyphen. */
  function CollapseSpaces(s: string): string
    decreases |s|
  {
    if s == [] then []
    else if IsSpace(s[0]) then "-" + CollapseSpaces(TrimStart(s[1..]))
    else [s[0]] + CollapseSpaces(s[1..])
  }

  /** `slice(0, n)`. */
  function Truncate(s: string, n: nat): (r: string)
    ensures |r| <= n && r <= s
    ensures |s| <= n ==> r == s
    ensures |s| > n ==> |r| == n
    ensures s != [] && n > 0 ==> r != []
  {
    if |s| <= n then s else s[..n]
  }

  /** The prompt lowercased, stripped and with its whitespace runs collapsed:
      the slug before the cut and the fallback. */
  function Cleaned(prompt: string): string {
    CollapseSpaces(StripUnkept(Lower(prompt)))
  }

  /** The stem of the download name: at most 50 characters, all of them
      lower-case letters, digits or hyphens, never two hyphens in a row, and
      never empty. */
  function Slug(prompt: string): (r: string)
    ensures 0 < |r| <= SlugLimit
    ensures AllSlugChars(r)
    ensures NoDoubleDash(r)
  {
    var cleaned := Cleaned(prompt);
    CollapseSpacesShape(StripUnkept(Lower(prompt)));
    var cut := Truncate(cleaned, SlugLimit);
    assert AllSlugChars(cut) && NoDoubleDash(cut) by {
      assert cut == cleaned[..|cut|];
    }
    if cut == [] then FallbackName else cut
  }

  /** The download name: the slug followed by the `.png` extension. */
  function DownloadName(prompt: string): (r: string)
    ensures 4 < |r| <= SlugLimit + 4
    ensures r[..|r| - 4] == Slug(prompt) && r[|r| - 4..] == ".png"
  {
    Slug(prompt) + ".png"
  }

  /** On text made only of kept characters, collapsing yields only slug
      characters, never two hyphens in a row, nothing longer than its input,
      and an empty result only from an empty input. */
  lemma {:induction false} CollapseSpacesShape(s: string)
    requires AllKept(s)
    ensures |CollapseSpaces(s)| <= |s|
    ensures CollapseSpaces(s) == [] <==> s == []
    ensures AllSlugChars(CollapseSpaces(s))
    ensures NoDoubleDash(CollapseSpaces(s))
    decreases |s|
  {
    if s == [] {
    } else if IsSpace(s[0]) {
      var t := TrimStart(s[1..]);
      assert AllKept(t) by {
        assert t == s[1..][|s[1..]| - |t|..];
      }
      CollapseSpacesShape(t);
      var rest := CollapseSpaces(t);
      assert rest != [] ==> rest[0] == t[0] && IsAlnum(t[0]);
      assert CollapseSpaces(s) == "-" + rest;
    } else {
      CollapseSpacesShape(s[1..]);
      assert CollapseSpaces(s) == [s[0]] + CollapseSpaces(s[1..]);
    }
  }

  /** Stripping leaves text made only of kept characters unchanged. */
  lemma {:induction false} StripUnkeptKeepsKept(s: string)
    requires AllKept(s)
    ensures StripUnkept(s) == s
  {
    if s != [] {
      StripUnkeptKeepsKept(s[1..]);
    }
  }

  /** Stripping removes everything exactly when no character is kept. */
  lemma {:induction false} StripUnkeptEmptyIff(s: string)
    ensures StripUnkept(s) == [] <==> forall i | 0 <= i < |s| :: !IsKept(s[i])
  {
    if s != [] {
      StripUnkeptEmptyIff(s[1..]);
      assert forall i | 1 <= i < |s| :: s[i] == s[1..][i - 1];
    }
  }

  /** Stripping works character by character: a kept character stays,
      any other character goes. */
  lemma StripUnkeptChar(c: char)
    ensures StripUnkept([c]) == if IsKept(c) then [c] else []
  {
    assert [c][1..] == [];
  }

  lemma StripUnkeptCons(c: char, s: string)
    ensures StripUnkept([c] + s) == (if IsKept(c) then [c] else []) + StripUnkept(s)
  {
    assert ([c] + s)[0] == c && ([c] + s)[1..] == s;
  }

  /** Stripping distributes over concatenation, so every kept character,
      whitespace between words included, stays in its place. */
  lemma {:induction false} StripUnkeptAppend(a: string, b: string)
    ensures StripUnkept(a + b) == StripUnkept(a) + StripUnkept(b)
  {
    if a == [] {
      assert a + b == b;
    } else {
      var c, t := a[0], a[1..];
      var head := if IsKept(c) then [c] else [];
      calc {
        StripUnkept(a + b);
        == { assert a + b == [c] + (t + b); StripUnkeptCons(c, t + b); }
        head + StripUnkept(t + b);
        == { StripUnkeptAppend(t, b); }
        head + (StripUnkept(t) + StripUnkept(b));
        == { assert a == [c] + t; StripUnkeptCons(c, t); }
        StripUnkept(a) + StripUnkept(b);
      }
    }
  }

  /** Dropping the leading whitespace of a whitespace run followed by text
      that does not start with whitespace leaves exactly that text. */
  lemma TrimStartOfRun(run: string, rest: string)
    requires AllSpace(run)
    requires rest == [] || !IsSpace(rest[0])
    ensures TrimStart(run + rest) == rest
  {
    var s := run + rest;
    var r := TrimStart(s);
    var dropped := s[..|s| - |r|];
    assert forall i | 0 <= i < |run| :: s[i] == run[i];
    assert forall i | 0 <= i < |dropped| :: dropped[i] == s[i];
    assert rest != [] ==> s[|run|] == rest[0];
    assert r == s[|run|..];
  }

  /** A maximal whitespace run becomes exactly one hyphen in its place. */
  lemma CollapseRun(run: string, rest: string)
    requires run != [] && AllSpace(run)
    requires rest == [] || !IsSpace(rest[0])
    ensures CollapseSpaces(run + rest) == "-" + CollapseSpaces(rest)
  {
    assert (run + rest)[0] == run[0];
    assert (run + rest)[1..] == run[1..] + rest;
    TrimStartOfRun(run[1..], rest);
  }

  lemma CollapseNonSpace(c: char, s: string)
    requires !IsSpace(c)
    ensures CollapseSpaces([c] + s) == [c] + CollapseSpaces(s)
  {
    assert ([c] + s)[0] == c && ([c] + s)[1..] == s;
  }

  /** Text without whitespace passes through collapsing unchanged. */
  lemma {:induction false} CollapseWord(w: string, rest: string)
    requires forall i | 0 <= i < |w| :: !IsSpace(w[i])
    ensures CollapseSpaces(w + rest) == w + CollapseSpaces(rest)
  {
    if w == [] {
      assert w + rest == rest;
    } else {
      var c, t := w[0], w[1..];
      calc {
        CollapseSpaces(w + rest);
        == { assert w + rest == [c] + (t + rest); CollapseNonSpace(c, t + rest); }
        [c] + CollapseSpaces(t + rest);
        == { CollapseWord(t, rest); }
        [c] + (t + CollapseSpaces(rest));
        == { assert w == [c] + t; }
        w + CollapseSpaces(rest);
      }
    }
  }

  /** The fallback name is used exactly when the prompt has no character
      that is a letter, a digit or whitespace once lowercased; otherwise the
      slug is the cleaned prompt cut to 50 characters. */
  lemma SlugFallbackIff(prompt: string)
    ensures Cleaned(prompt) == [] <==> forall i | 0 <= i < |prompt| :: !IsKept(LowerChar(prompt[i]))
    ensures Cleaned(prompt) == [] ==> Slug(prompt) == FallbackName
    ensures Cleaned(prompt) != [] ==> Slug(prompt) == Truncate(Cleaned(prompt), SlugLimit)
  {
    var lower := Lower(prompt);
    assert forall i | 0 <= i < |prompt| :: lower[i] == LowerChar(prompt[i]);
    StripUnkeptEmptyIff(lower);
    CollapseSpacesShape(StripUnkept(lower));
  }

  /** A non-empty prompt made only of whitespace becomes a single hyphen, not
      the fallback. */
  lemma SlugOfBlank(prompt: string)
    requires prompt != [] && AllSpace(prompt)
    ensures Slug(prompt) == "-"
  {
    assert Lower(prompt) == prompt;
    StripUnkeptKeepsKept(prompt);
    var t := TrimStart(prompt[1..]);
    assert t == [];
    assert CollapseSpaces(prompt) == "-" + CollapseSpaces(t);
  }

  /** The letters and digits of a string, in order. */
  function Alnums(s: string): string {
    if s == [] then []
    else (if IsAlnum(s[0]) then [s[0]] else []) + Alnums(s[1..])
  }

  lemma {:induction false} AlnumsAppend(a: string, b: string)
    ensures Alnums(a + b) == Alnums(a) + Alnums(b)
  {
    if a == [] {
      assert a + b == b;
    } else {
      AlnumsAppend(a[1..], b);
      assert a + b == [a[0]] + (a[1..] + b);
      assert a == [a[0]] + a[1..];
      AlnumsCons(a[0], a[1..] + b);
      AlnumsCons(a[0], a[1..]);
    }
  }

  lemma AlnumsCons(c: char, s: string)
    ensures Alnums([c] + s) == (if IsAlnum(c) then [c] else []) + Alnums(s)
  {
    assert ([c] + s)[0] == c && ([c] + s)[1..] == s;
  }

  /** Stripping keeps every letter and digit, in order. */
  lemma {:induction false} AlnumsOfStripUnkept(s: string)
    ensures Alnums(StripUnkept(s)) == Alnums(s)
  {
    if s != [] {
      AlnumsOfStripUnkept(s[1..]);
      AlnumsAppend(if IsKept(s[0]) then [s[0]] else [], StripUnkept(s[1..]));
    }
  }

  /** Dropping leading whitespace drops no letter or digit. */
  lemma {:induction false} AlnumsOfTrimStart(s: string)
    ensures Alnums(TrimStart(s)) == Alnums(s)
  {
    var r := TrimStart(s);
    var dropped := s[..|s| - |r|];
    assert s == dropped + r;
    AlnumsAppend(dropped, r);
    AlnumsOfSpaces(dropped);
  }

  /** Whitespace holds no letter or digit. */
  lemma {:induction false} AlnumsOfSpaces(w: string)
    requires AllSpace(w)
    ensures Alnums(w) == []
  {
    if w != [] {
      AlnumsOfSpaces(w[1..]);
      assert w == [w[0]] + w[1..];
      AlnumsCons(w[0], w[1..]);
    }
  }

  /** Collapsing whitespace keeps every letter and digit, in order. */
  lemma {:induction false} AlnumsOfCollapseSpaces(s: string)
    ensures Alnums(CollapseSpaces(s)) == Alnums(s)
    decreases |s|
  {
    if s == [] {
    } else if IsSpace(s[0]) {
      var t := TrimStart(s[1..]);
      AlnumsOfCollapseSpaces(t);
      AlnumsOfTrimStart(s[1..]);
      assert CollapseSpaces(s) == ['-'] + CollapseSpaces(t);
      AlnumsCons('-', CollapseSpaces(t));
      assert !IsAlnum(s[0]);
      assert Alnums(s) == Alnums(s[1..]);
    } else {
      AlnumsOfCollapseSpaces(s[1..]);
      assert CollapseSpaces(s) == [s[0]] + CollapseSpaces(s[1..]);
      AlnumsCons(s[0], CollapseSpaces(s[1..]));
    }
  }

  /** The letters and digits of a prefix are a prefix of the letters and
      digits of the whole. */
  lemma {:induction false} AlnumsOfPrefix(s: string, n: nat)
    requires n <= |s|
    ensures Alnums(s[..n]) <= Alnums(s)
  {
    assert s == s[..n] + s[n..];
    AlnumsAppend(s[..n], s[n..]);
  }

  /** Unless the fallback is used, the letters and digits of the slug are
      those of the lowercased prompt, in their original order, up to the
      cut; when the cleaned prompt fits in 50 characters they are all of
      them. */
  lemma SlugKeepsAlnumOrder(prompt: string)
    ensures Cleaned(prompt) != [] ==> Alnums(Slug(prompt)) <= Alnums(Lower(prompt))
    ensures Cleaned(prompt) != [] && |Cleaned(prompt)| <= SlugLimit ==>
      Alnums(Slug(prompt)) == Alnums(Lower(prompt))
  {
    var lower := Lower(prompt);
    var cleaned := Cleaned(prompt);
    AlnumsOfStripUnkept(lower);
    AlnumsOfCollapseSpaces(StripUnkept(lower));
    SlugFallbackIff(prompt);
    if cleaned != [] {
      var cut := Truncate(cleaned, SlugLimit);
      AlnumsOfPrefix(cleaned, |cut|);
      assert cut == cleaned[..|cut|];
    }
  }

  /** Worked example: a prompt of punctuation only gets the fallback name. */
  lemma FallbackExample()
    ensures DownloadName("!!!") == "generated-image.png"
  {
    assert Lower("!!!") == "!!!";
  }

  /** The actions a card offers: editing the prompt, Generate, Retry and
      Download. */
  datatype CardActions = CardActions(editPrompt: bool, generate: bool, retry: bool, download: bool)

  /** The card's case split on the status: a `Pending` card offers prompt
      editing and Generate, an `Error` card only Retry, a `Success` card only
      Download, and `Loading` and `Cancelled` cards nothing. */
  function ActionsFor(status: ImageStatus): (a: CardActions)
    ensures a.editPrompt <==> status == Pending
    ensures a.generate <==> status == Pending
    ensures a.retry <==> status == Error
    ensures a.download <==> status == Success
  {
    match status
    case Pending => CardActions(true, true, false, false)
    case Error => CardActions(false, false, true, false)
    case Success => CardActions(false, false, false, true)
    case Loading => CardActions(false, false, false, false)
    case Cancelled => CardActions(false, false, false, false)
  }

  /** The card offers a way to start a generation (Generate or Retry)
      exactly for the statuses from which the store starts one, and at most
      one action other than editing is ever offered. */
  lemma OfferedGenerationMatchesGuard(status: ImageStatus)
    ensures ActionsFor(status).generate || ActionsFor(status).retry <==> Items.CanGenerate(status)
    ensures !(ActionsFor(status).generate && ActionsFor(status).retry)
    ensures ActionsFor(status).download ==> !ActionsFor(status).generate && !ActionsFor(status).retry
  {
  }
}
