/** The two indexing loops of the preprocessing script. Every recipe file and
    every allergen page that passes its filter is handed to
    `add_text_to_collection`, one `collection.add` call each; a call that
    raises is logged and the loop moves on. The store is an oracle `accepts`
    saying whether one call succeeds, and its state is the set of ids it
    holds. */
module Indexer {
  import opened Wrappers
  import opened Text
  import opened Passages

  /** The arguments of one `collection.add(documents=[text],
      metadatas=[metadata], ids=[uid])` call. */
  datatype Request = Request(doc: string, id: string, metadata: Metadata)

  /** The ids in the store and, in order, the ids whose `add` raised (the
      `Erreur avec {uid}` lines). */
  datatype State = State(stored: set<string>, errors: seq<string>)

  /** `metadata or {}`: a missing map and an empty one both become the empty
      map, so the expression only ever replaces `None`. */
  function EffectiveMetadata(m: Option<Metadata>): (r: Metadata)
    ensures m.Some? ==> r == m.value
    ensures m.None? ==> r == map[]
  {
    match m
    case None => map[]
    case Some(md) => if md == map[] then map[] else md
  }

  /** `add_text_to_collection(text, uid, metadata)`: the store gains `uid`
      when the call succeeds; otherwise `uid` is logged. Nothing else
      changes and nothing is raised to the caller. */
  function AddText(st: State, text: string, uid: string, metadata: Option<Metadata>,
                   accepts: Request -> bool): (r: State)
    ensures uid in r.stored <==> uid in st.stored || accepts(Request(text, uid, EffectiveMetadata(metadata)))
    ensures r.stored - {uid} == st.stored - {uid}
    ensures r.errors == if accepts(Request(text, uid, EffectiveMetadata(metadata))) then st.errors else st.errors + [uid]
  {
    var req := Request(text, uid, EffectiveMetadata(metadata));
    if accepts(req) then State(st.stored + {uid}, st.errors)
    else State(st.stored, st.errors + [uid])
  }

  function RequestOf(p: Passage): Request
  {
    Request(p.text, p.id, p.metadata)
  }

  function Submit(st: State, p: Passage, accepts: Request -> bool): State
  {
    AddText(st, p.text, p.id, Some(p.metadata), accepts)
  }

  /** The state after submitting `ps` one after the other. */
  function SubmitAll(st: State, ps: seq<Passage>, accepts: Request -> bool): State
    decreases |ps|
  {
    if |ps| == 0 then st else SubmitAll(Submit(st, ps[0], accepts), ps[1..], accepts)
  }

  /** The ids of `ps` whose call the store refuses, in order. */
  function Refused(ps: seq<Passage>, accepts: Request -> bool): seq<string>
  {
    if |ps| == 0 then []
    else (if accepts(RequestOf(ps[0])) then [] else [ps[0].id]) + Refused(ps[1..], accepts)
  }

  /** The ids of `ps`, as a set. */
  function PassageIds(ps: seq<Passage>): set<string>
  {
    if |ps| == 0 then {} else {ps[0].id} + PassageIds(ps[1..])
  }

  lemma {:induction false} SubmitAllConcat(st: State, ps: seq<Passage>, qs: seq<Passage>, accepts: Request -> bool)
    ensures SubmitAll(st, ps + qs, accepts) == SubmitAll(SubmitAll(st, ps, accepts), qs, accepts)
    decreases |ps|
  {
    if |ps| == 0 {
      assert ps + qs == qs;
    } else {
      assert (ps + qs)[1..] == ps[1..] + qs;
      SubmitAllConcat(Submit(st, ps[0], accepts), ps[1..], qs, accepts);
    }
  }

  /** Partial-failure isolation: after a run an id is in the store exactly
      when it was there before or some passage carrying it was accepted; a
      refused call affects no other passage. */
  lemma {:induction false} SubmitAllStored(st: State, ps: seq<Passage>, accepts: Request -> bool, id: string)
    ensures id in SubmitAll(st, ps, accepts).stored <==>
      id in st.stored || exists k :: 0 <= k < |ps| && ps[k].id == id && accepts(RequestOf(ps[k]))
    decreases |ps|
  {
    if |ps| > 0 {
      SubmitAllStored(Submit(st, ps[0], accepts), ps[1..], accepts, id);
      if exists k :: 0 <= k < |ps| && ps[k].id == id && accepts(RequestOf(ps[k])) {
        var k :| 0 <= k < |ps| && ps[k].id == id && accepts(RequestOf(ps[k]));
        if k > 0 {
          assert ps[1..][k - 1] == ps[k];
        }
      }
      if exists k :: 0 <= k < |ps[1..]| && ps[1..][k].id == id && accepts(RequestOf(ps[1..][k])) {
        var k :| 0 <= k < |ps[1..]| && ps[1..][k].id == id && accepts(RequestOf(ps[1..][k]));
        assert ps[k + 1] == ps[1..][k];
      }
    }
  }

  /** The log lists the refused passages, in submission order, after what
      was logged before. */
  lemma {:induction false} SubmitAllErrors(st: State, ps: seq<Passage>, accepts: Request -> bool)
    ensures SubmitAll(st, ps, accepts).errors == st.errors + Refused(ps, accepts)
    decreases |ps|
  {
    if |ps| > 0 {
      var next := Submit(st, ps[0], accepts);
      SubmitAllErrors(next, ps[1..], accepts);
      assert next.errors == st.errors + (if accepts(RequestOf(ps[0])) then [] else [ps[0].id]);
    }
  }

  predicate AllAccepted(ps: seq<Passage>, accepts: Request -> bool)
  {
    forall k :: 0 <= k < |ps| ==> accepts(RequestOf(ps[k]))
  }

  /** When every call succeeds the store gains exactly the ids of `ps`. */
  lemma {:induction false} StoredWhenAllAccepted(st: State, ps: seq<Passage>, accepts: Request -> bool)
    requires AllAccepted(ps, accepts)
    ensures SubmitAll(st, ps, accepts).stored == st.stored + PassageIds(ps)
    ensures SubmitAll(st, ps, accepts).errors == st.errors
    decreases |ps|
  {
    if |ps| > 0 {
      assert accepts(RequestOf(ps[0]));
      assert AllAccepted(ps[1..], accepts) by {
        forall k | 0 <= k < |ps[1..]|
          ensures accepts(RequestOf(ps[1..][k]))
        {
          assert ps[1..][k] == ps[k + 1];
        }
      }
      StoredWhenAllAccepted(Submit(st, ps[0], accepts), ps[1..], accepts);
    }
  }

  /** Re-running the same passages against a store that accepts them all
      leaves it as the first run did: slug- and page-based ids make
      re-ingestion idempotent. */
  lemma Reingest(st: State, ps: seq<Passage>, accepts: Request -> bool)
    requires AllAccepted(ps, accepts)
    ensures SubmitAll(SubmitAll(st, ps, accepts), ps, accepts).stored == SubmitAll(st, ps, accepts).stored
  {
    StoredWhenAllAccepted(st, ps, accepts);
    StoredWhenAllAccepted(SubmitAll(st, ps, accepts), ps, accepts);
  }

  lemma {:induction false} PassageIdsSize(ps: seq<Passage>)
    ensures |PassageIds(ps)| <= |ps|
    ensures (forall a, b :: 0 <= a < b < |ps| ==> ps[a].id != ps[b].id) ==> |PassageIds(ps)| == |ps|
    decreases |ps|
  {
    if |ps| > 0 {
      PassageIdsSize(ps[1..]);
      if forall a, b :: 0 <= a < b < |ps| ==> ps[a].id != ps[b].id {
        assert forall a, b :: 0 <= a < b < |ps[1..]| ==> ps[1..][a].id != ps[1..][b].id by {
          forall a, b | 0 <= a < b < |ps[1..]|
            ensures ps[1..][a].id != ps[1..][b].id
          {
            assert ps[1..][a] == ps[a + 1] && ps[1..][b] == ps[b + 1];
          }
        }
        forall k | 0 <= k < |ps[1..]|
          ensures ps[1..][k].id != ps[0].id
        {
          assert ps[1..][k] == ps[k + 1];
        }
        PassageIdsMembers(ps[1..], ps[0].id);
      }
    }
  }

  lemma {:induction false} PassageIdsMembers(ps: seq<Passage>, id: string)
    ensures id in PassageIds(ps) <==> exists k :: 0 <= k < |ps| && ps[k].id == id
    decreases |ps|
  {
    if |ps| > 0 {
      PassageIdsMembers(ps[1..], id);
      if exists k :: 0 <= k < |ps[1..]| && ps[1..][k].id == id {
        var k :| 0 <= k < |ps[1..]| && ps[1..][k].id == id;
        assert ps[k + 1] == ps[1..][k];
      }
      if exists k :: 0 <= k < |ps| && ps[k].id == id {
        var k :| 0 <= k < |ps| && ps[k].id == id;
        if k > 0 {
          assert ps[1..][k - 1] == ps[k];
        }
      }
    }
  }

  // ---------------------------------------------------------------------
  // What the two loops submit

  /** The passage a file or page yields, as a list of zero or one. */
  function OptList(o: Option<Passage>): (l: seq<Passage>)
    ensures |l| <= 1
    ensures forall p :: p in l <==> o == Some(p)
  {
    match o case None => [] case Some(p) => [p]
  }

  /** The recipe passages, in file order: one per file that is not skipped. */
  function RecipePassages(slugify: string -> string, files: seq<PdfFile>): (ps: seq<Passage>)
    ensures |ps| <= |files|
  {
    if |files| == 0 then []
    else
      OptList(RecipePassage(slugify, files[0])) + RecipePassages(slugify, files[1..])
  }

  /** Page by page, the passage each page of an allergen file yields. */
  function PagePassages(slugify: string -> string, f: PdfFile): (os: seq<Option<Passage>>)
    ensures |os| == |f.pages|
    ensures forall j :: 0 <= j < |f.pages| ==> os[j] == AllergenPassage(slugify, f, j)
  {
    seq(|f.pages|, j requires 0 <= j < |f.pages| => AllergenPassage(slugify, f, j))
  }

  /** The passages present in `os`, in order. */
  function Present(os: seq<Option<Passage>>): (ps: seq<Passage>)
    ensures |ps| <= |os|
  {
    if |os| == 0 then [] else OptList(os[0]) + Present(os[1..])
  }

  /** The allergen passages of one file, in page order. */
  function AllergenFilePassages(slugify: string -> string, f: PdfFile): seq<Passage>
  {
    Present(PagePassages(slugify, f))
  }

  /** The allergen passages of all files, file after file, page after page. */
  function AllergenPassages(slugify: string -> string, files: seq<PdfFile>): seq<Passage>
  {
    if |files| == 0 then []
    else AllergenFilePassages(slugify, files[0]) + AllergenPassages(slugify, files[1..])
  }

  /** Each recipe passage comes from one of the files, and every file that
      is not skipped contributes its passage. */
  lemma {:induction false} RecipePassagesMembers(slugify: string -> string, files: seq<PdfFile>, p: Passage)
    ensures p in RecipePassages(slugify, files) <==>
      exists i :: 0 <= i < |files| && RecipePassage(slugify, files[i]) == Some(p)
    decreases |files|
  {
    if |files| > 0 {
      RecipePassagesMembers(slugify, files[1..], p);
      if exists i :: 0 <= i < |files| && RecipePassage(slugify, files[i]) == Some(p) {
        var i :| 0 <= i < |files| && RecipePassage(slugify, files[i]) == Some(p);
        if i > 0 {
          assert files[1..][i - 1] == files[i];
        }
      }
      if exists i :: 0 <= i < |files[1..]| && RecipePassage(slugify, files[1..][i]) == Some(p) {
        var i :| 0 <= i < |files[1..]| && RecipePassage(slugify, files[1..][i]) == Some(p);
        assert files[i + 1] == files[1..][i];
      }
    }
  }

  /** The number of files that are not skipped. */
  function NotSkipped(slugify: string -> string, files: seq<PdfFile>): nat
  {
    if |files| == 0 then 0
    else (if RecipePassage(slugify, files[0]).Some? then 1 else 0) + NotSkipped(slugify, files[1..])
  }

  /** The recipe loop yields exactly one passage per file that is not
      skipped. */
  lemma {:induction false} RecipePassagesCount(slugify: string -> string, files: seq<PdfFile>)
    ensures |RecipePassages(slugify, files)| == NotSkipped(slugify, files)
    decreases |files|
  {
    if |files| > 0 {
      RecipePassagesCount(slugify, files[1..]);
    }
  }

  lemma {:induction false} PresentMembers(os: seq<Option<Passage>>, p: Passage)
    ensures p in Present(os) <==> exists j :: 0 <= j < |os| && os[j] == Some(p)
    decreases |os|
  {
    if |os| > 0 {
      PresentMembers(os[1..], p);
      if exists j :: 0 <= j < |os| && os[j] == Some(p) {
        var j :| 0 <= j < |os| && os[j] == Some(p);
        if j > 0 {
          assert os[1..][j - 1] == os[j];
        }
      }
      if exists j :: 0 <= j < |os[1..]| && os[1..][j] == Some(p) {
        var j :| 0 <= j < |os[1..]| && os[1..][j] == Some(p);
        assert os[j + 1] == os[1..][j];
      }
    }
  }

  /** Each allergen passage of a file comes from one of its pages, and every
      page kept contributes its passage. */
  lemma AllergenPassagesMembers(slugify: string -> string, f: PdfFile, p: Passage)
    ensures p in AllergenFilePassages(slugify, f) <==>
      exists j :: 0 <= j < |f.pages| && AllergenPassage(slugify, f, j) == Some(p)
  {
    var os := PagePassages(slugify, f);
    PresentMembers(os, p);
    if exists j :: 0 <= j < |os| && os[j] == Some(p) {
      var j :| 0 <= j < |os| && os[j] == Some(p);
      assert AllergenPassage(slugify, f, j) == Some(p);
    }
  }

  /** Passages present at different positions of `os` carry different ids. */
  predicate IdsApart(os: seq<Option<Passage>>)
  {
    forall j, k :: 0 <= j < k < |os| && os[j].Some? && os[k].Some? ==> os[j].value.id != os[k].value.id
  }

  predicate DistinctIds(ps: seq<Passage>)
  {
    forall a, b :: 0 <= a < b < |ps| ==> ps[a].id != ps[b].id
  }

  lemma {:induction false} PresentDistinct(os: seq<Option<Passage>>)
    requires IdsApart(os)
    ensures DistinctIds(Present(os))
    decreases |os|
  {
    if |os| > 0 {
      var rest := Present(os[1..]);
      assert IdsApart(os[1..]) by {
        forall j, k | 0 <= j < k < |os[1..]| && os[1..][j].Some? && os[1..][k].Some?
          ensures os[1..][j].value.id != os[1..][k].value.id
        {
          assert os[1..][j] == os[j + 1] && os[1..][k] == os[k + 1];
        }
      }
      PresentDistinct(os[1..]);
      if os[0].Some? {
        var ps := Present(os);
        forall b | 0 <= b < |rest|
          ensures rest[b].id != os[0].value.id
        {
          PresentMembers(os[1..], rest[b]);
          var k :| 0 <= k < |os[1..]| && os[1..][k] == Some(rest[b]);
          assert os[k + 1] == os[1..][k];
        }
        assert ps == [os[0].value] + rest;
        forall a, b | 0 <= a < b < |ps|
          ensures ps[a].id != ps[b].id
        {
          assert ps[b] == rest[b - 1];
          if a > 0 {
            assert ps[a] == rest[a - 1];
          }
        }
      }
    }
  }

  /** The passages of one allergen file have pairwise distinct ids. */
  lemma AllergenIdsDistinct(slugify: string -> string, f: PdfFile)
    ensures DistinctIds(AllergenFilePassages(slugify, f))
  {
    var os := PagePassages(slugify, f);
    var slug := slugify(Stem(f.name));
    forall j, k | 0 <= j < k < |os| && os[j].Some? && os[k].Some?
      ensures os[j].value.id != os[k].value.id
    {
      AllergenPagesDistinct(slug, j, k);
    }
    PresentDistinct(os);
  }

  /** The number of kept pages from page `i` on. */
  function KeptCount(f: PdfFile, i: nat): (n: nat)
    requires i <= |f.pages|
    ensures n <= |f.pages| - i
    decreases |f.pages| - i
  {
    if i == |f.pages| then 0 else (if Kept(f, i) then 1 else 0) + KeptCount(f, i + 1)
  }

  lemma {:induction false} AllergenPassagesCount(slugify: string -> string, f: PdfFile, i: nat)
    requires i <= |f.pages|
    ensures |Present(PagePassages(slugify, f)[i..])| == KeptCount(f, i)
    decreases |f.pages| - i
  {
    var os := PagePassages(slugify, f);
    if i < |f.pages| {
      assert os[i..][1..] == os[i + 1..];
      assert os[i..][0] == AllergenPassage(slugify, f, i);
      AllergenKept(slugify, f, i);
      AllergenPassagesCount(slugify, f, i + 1);
    }
  }

  /** Ingesting one allergen file into an empty store that accepts every
      page gives one document per kept page; ingesting it again adds
      nothing, so the count never exceeds the number of pages. */
  lemma AllergenFileCount(slugify: string -> string, f: PdfFile, accepts: Request -> bool)
    requires AllAccepted(AllergenFilePassages(slugify, f), accepts)
    ensures var ps := AllergenFilePassages(slugify, f);
      var once := SubmitAll(State({}, []), ps, accepts);
      && |once.stored| == KeptCount(f, 0) <= |f.pages|
      && SubmitAll(once, ps, accepts).stored == once.stored
  {
    var ps := AllergenFilePassages(slugify, f);
    StoredWhenAllAccepted(State({}, []), ps, accepts);
    AllergenIdsDistinct(slugify, f);
    PassageIdsSize(ps);
    AllergenPassagesCount(slugify, f, 0);
    assert PagePassages(slugify, f)[0..] == PagePassages(slugify, f);
    Reingest(State({}, []), ps, accepts);
  }

  /** Whatever the store answers in either run, ingesting one allergen file
      twice into an empty store leaves at most one document per kept page,
      so never more documents than the file has pages. */
  lemma AllergenReingestBound(slugify: string -> string, f: PdfFile, a1: Request -> bool, a2: Request -> bool)
    ensures var ps := AllergenFilePassages(slugify, f);
      var twice := SubmitAll(SubmitAll(State({}, []), ps, a1), ps, a2);
      && twice.stored <= PassageIds(ps)
      && |twice.stored| <= KeptCount(f, 0) <= |f.pages|
  {
    var ps := AllergenFilePassages(slugify, f);
    var once := SubmitAll(State({}, []), ps, a1);
    var twice := SubmitAll(once, ps, a2);
    forall id | id in twice.stored
      ensures id in PassageIds(ps)
    {
      SubmitAllStored(once, ps, a2, id);
      SubmitAllStored(State({}, []), ps, a1, id);
      PassageIdsMembers(ps, id);
    }
    SubsetSize(twice.stored, PassageIds(ps));
    PassageIdsSize(ps);
    AllergenPassagesCount(slugify, f, 0);
    assert PagePassages(slugify, f)[0..] == PagePassages(slugify, f);
  }

  lemma SubsetSize(a: set<string>, b: set<string>)
    requires a <= b
    ensures |a| <= |b|
  {
    assert b == a + (b - a);
  }

  // ---------------------------------------------------------------------
  // The loops

  /** Submitting the passage a file or page yields, if any. */
  function SubmitOpt(st: State, o: Option<Passage>, accepts: Request -> bool): State
  {
    match o
    case None => st
    case Some(p) => Submit(st, p, accepts)
  }

  lemma RecipeStep(slugify: string -> string, files: seq<PdfFile>, i: nat, st: State, accepts: Request -> bool)
    requires i < |files|
    ensures SubmitAll(st, RecipePassages(slugify, files[i..]), accepts)
         == SubmitAll(SubmitOpt(st, RecipePassage(slugify, files[i]), accepts), RecipePassages(slugify, files[i + 1..]), accepts)
  {
    assert files[i..][1..] == files[i + 1..];
    SubmitAllConcat(st, OptList(RecipePassage(slugify, files[i])), RecipePassages(slugify, files[i + 1..]), accepts);
  }

  lemma PageStep(os: seq<Option<Passage>>, j: nat, st: State, accepts: Request -> bool)
    requires j < |os|
    ensures SubmitAll(st, Present(os[j..]), accepts)
         == SubmitAll(SubmitOpt(st, os[j], accepts), Present(os[j + 1..]), accepts)
  {
    assert os[j..][1..] == os[j + 1..];
    SubmitAllConcat(st, OptList(os[j]), Present(os[j + 1..]), accepts);
  }

  /** The recipe loop: one call per file whose stripped text is not empty. */
  method IndexRecipes(slugify: string -> string, files: seq<PdfFile>, accepts: Request -> bool, st: State)
    returns (r: State)
    ensures r == SubmitAll(st, RecipePassages(slugify, files), accepts)
  {
    r := st;
    var i := 0;
    while i < |files|
      invariant i <= |files|
      invariant SubmitAll(r, RecipePassages(slugify, files[i..]), accepts)
             == SubmitAll(st, RecipePassages(slugify, files), accepts)
    {
      RecipeStep(slugify, files, i, r, accepts);
      match RecipePassage(slugify, files[i]) {
        case None =>
        case Some(p) => r := AddText(r, p.text, p.id, Some(p.metadata), accepts);
      }
      i := i + 1;
    }
    assert files[|files|..] == [];
  }

  /** The allergen loop: for every file, one call per kept page. */
  method IndexAllergens(slugify: string -> string, files: seq<PdfFile>, accepts: Request -> bool, st: State)
    returns (r: State)
    ensures r == SubmitAll(st, AllergenPassages(slugify, files), accepts)
  {
    r := st;
    var i := 0;
    while i < |files|
      invariant i <= |files|
      invariant SubmitAll(r, AllergenPassages(slugify, files[i..]), accepts)
             == SubmitAll(st, AllergenPassages(slugify, files), accepts)
    {
      assert files[i..][1..] == files[i + 1..];
      var f := files[i];
      SubmitAllConcat(r, AllergenFilePassages(slugify, f), AllergenPassages(slugify, files[i + 1..]), accepts);
      r := IndexAllergenFile(slugify, f, accepts, r);
      i := i + 1;
    }
    assert files[|files|..] == [];
  }

  /** The page loop of one allergen file. */
  method IndexAllergenFile(slugify: string -> string, f: PdfFile, accepts: Request -> bool, st: State)
    returns (r: State)
    ensures r == SubmitAll(st, AllergenFilePassages(slugify, f), accepts)
  {
    r := st;
    ghost var os := PagePassages(slugify, f);
    assert os[0..] == os;
    var j := 0;
    while j < |f.pages|
      invariant j <= |f.pages|
      invariant SubmitAll(r, Present(os[j..]), accepts) == SubmitAll(st, Present(os), accepts)
    {
      PageStep(os, j, r, accepts);
      match AllergenPassage(slugify, f, j) {
        case None =>
        case Some(p) => r := AddText(r, p.text, p.id, Some(p.metadata), accepts);
      }
      j := j + 1;
    }
    assert os[|f.pages|..] == [];
  }

  /** The whole script: recipes first, then allergen pages, then
      `collection.count()`. */
  method Preprocess(slugify: string -> string, recipes: seq<PdfFile>, allergens: seq<PdfFile>,
                    accepts: Request -> bool, before: set<string>)
    returns (r: State, count: nat)
    ensures r == SubmitAll(State(before, []),
                           RecipePassages(slugify, recipes) + AllergenPassages(slugify, allergens), accepts)
    ensures count == |r.stored|
  {
    var st := IndexRecipes(slugify, recipes, accepts, State(before, []));
    r := IndexAllergens(slugify, allergens, accepts, st);
    SubmitAllConcat(State(before, []), RecipePassages(slugify, recipes), AllergenPassages(slugify, allergens), accepts);
    count := |r.stored|;
  }
}
