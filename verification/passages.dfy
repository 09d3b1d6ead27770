/** What the preprocessing script hands to the store for each PDF: a recipe
    file becomes one passage holding its whole text, an allergen file one
    passage per page with enough text. Each passage carries an id derived
    from the slugified file stem and a metadata map. */
module Passages {
  import opened Wrappers
  import opened Text
  import opened Tagger
  import Batcher

  /** An allergen page is indexed only when its stripped text is longer than
      this many characters. */
  const MinAllergenChars: nat := 100

  /** A metadata value: Chroma accepts strings, integers and booleans. */
  datatype Value = Str(s: string) | Int(n: int) | Bool(b: bool)

  type Metadata = map<string, Value>

  /** One `collection.add` document: its id, its text and its metadata. */
  datatype Passage = Passage(id: string, text: string, metadata: Metadata)

  /** A PDF matched by the `*.pdf` glob: its file name (`path.name`) and,
      page by page, what `page.extract_text()` returned. */
  datatype PdfFile = PdfFile(name: string, pages: seq<Option<string>>)

  /** `path.stem` of a name ending in `.pdf`: the name without that suffix,
      except that a name that is only `.pdf` has no suffix. */
  function Stem(name: string): string
  {
    if |name| > 4 && name[|name| - 4..] == ".pdf" then name[..|name| - 4] else name
  }

  // ---------------------------------------------------------------------
  // Ids

  /** `f"recipe_{slugify(path.stem)}"`, given the slug. */
  function RecipeId(slug: string): string
  {
    "recipe_" + slug
  }

  /** `f"allergen_{slugify(path.stem)}_p{i+1}"`, given the slug and the
      0-based page index. */
  function AllergenId(slug: string, i: nat): string
  {
    "allergen_" + slug + "_p" + NatToString(i + 1)
  }

  /** Two recipe files get the same id exactly when their slugs agree. */
  lemma RecipeIdInjective(s: string, t: string)
    ensures RecipeId(s) == RecipeId(t) <==> s == t
  {
    if RecipeId(s) == RecipeId(t) {
      assert s == RecipeId(s)[7..];
    }
  }

  /** Within one file, distinct pages get distinct ids. */
  lemma AllergenPagesDistinct(slug: string, i: nat, j: nat)
    ensures AllergenId(slug, i) == AllergenId(slug, j) <==> i == j
  {
    var prefix := "allergen_" + slug + "_p";
    if AllergenId(slug, i) == AllergenId(slug, j) {
      assert NatToString(i + 1) == AllergenId(slug, i)[|prefix|..];
      assert NatToString(j + 1) == AllergenId(slug, j)[|prefix|..];
      NatToStringInjective(i + 1, j + 1);
    }
  }

  /** The allergen id determines both the file slug and the page, whatever
      the slugs hold: the last underscore of the id is the one before
      `p<digits>`. */
  lemma AllergenIdInjective(s: string, t: string, i: nat, j: nat)
    ensures AllergenId(s, i) == AllergenId(t, j) <==> s == t && i == j
  {
    var a := AllergenId(s, i);
    var b := AllergenId(t, j);
    if a == b {
      LastUnderscore(s, i);
      LastUnderscore(t, j);
      assert |s| == |t|;
      assert s == a[9..9 + |s|];
      assert t == b[9..9 + |t|];
      AllergenPagesDistinct(s, i, j);
    }
  }

  /** The underscore that ends the slug is the last one of the id. */
  lemma LastUnderscore(s: string, i: nat)
    ensures 9 + |s| < |AllergenId(s, i)|
    ensures AllergenId(s, i)[9 + |s|] == '_'
    ensures forall k :: 9 + |s| < k < |AllergenId(s, i)| ==> AllergenId(s, i)[k] != '_'
  {
    var a := AllergenId(s, i);
    var d := NatToString(i + 1);
    assert a == "allergen_" + s + "_p" + d;
    forall k | 9 + |s| < k < |a|
      ensures a[k] != '_'
    {
      if k == 10 + |s| {
        assert a[k] == 'p';
      } else {
        assert a[k] == d[k - 11 - |s|];
      }
    }
  }

  /** The three id schemes of the project never produce the same string:
      recipe, allergen and chunk ids start with different words. */
  lemma IdSchemesDisjoint(s: string, t: string, i: nat, p: nat)
    ensures RecipeId(s) != AllergenId(t, i)
    ensures RecipeId(s) != Batcher.ChunkId(p)
    ensures AllergenId(t, i) != Batcher.ChunkId(p)
  {
    assert RecipeId(s)[0] == 'r';
    assert AllergenId(t, i)[0] == 'a';
    assert Batcher.ChunkId(p)[0] == 'c';
  }

  // ---------------------------------------------------------------------
  // Recipes

  /** `page.extract_text() or ""` for every page. */
  function PageTexts(pages: seq<Option<string>>): (ts: seq<string>)
    ensures |ts| == |pages|
    ensures forall i :: 0 <= i < |pages| ==> ts[i] == pages[i].GetOr("")
  {
    seq(|pages|, i requires 0 <= i < |pages| => pages[i].GetOr(""))
  }

  /** `"".join(...).strip()` over the pages of a recipe file. */
  function RecipeText(f: PdfFile): string
  {
    Strip(Flatten(PageTexts(f.pages)))
  }

  /** The passage of a recipe file, or `None` when its text is empty after
      stripping (`continue`). */
  function RecipePassage(slugify: string -> string, f: PdfFile): Option<Passage>
  {
    var text := RecipeText(f);
    if text == [] then None
    else
      var flag := IsVeggie(Stem(f.name) + " " + text);
      Some(Passage(RecipeId(slugify(Stem(f.name))), text,
        map["type" := Str("recipe"), "file" := Str(f.name), "is_veggie" := Bool(flag)]))
  }

  predicate AllSpace(s: string)
  {
    forall k :: 0 <= k < |s| ==> IsSpace(s[k])
  }

  lemma AllSpaceConcat(a: string, b: string)
    ensures AllSpace(a + b) <==> AllSpace(a) && AllSpace(b)
  {
    if AllSpace(a + b) {
      forall k | 0 <= k < |a|
        ensures IsSpace(a[k])
      {
        assert (a + b)[k] == a[k];
      }
      forall k | 0 <= k < |b|
        ensures IsSpace(b[k])
      {
        assert (a + b)[|a| + k] == b[k];
      }
    }
    if AllSpace(a) && AllSpace(b) {
      forall k | 0 <= k < |a + b|
        ensures IsSpace((a + b)[k])
      {
        if k < |a| {
          assert (a + b)[k] == a[k];
        } else {
          assert (a + b)[k] == b[k - |a|];
        }
      }
    }
  }

  lemma {:induction false} AllSpaceFlatten(xss: seq<string>)
    ensures AllSpace(Flatten(xss)) <==> forall i :: 0 <= i < |xss| ==> AllSpace(xss[i])
    decreases |xss|
  {
    if |xss| > 0 {
      AllSpaceFlatten(xss[1..]);
      AllSpaceConcat(xss[0], Flatten(xss[1..]));
      assert forall i :: 1 <= i < |xss| ==> xss[i] == xss[1..][i - 1];
    }
  }

  /** A recipe file is skipped exactly when every page is missing or holds
      only whitespace. */
  lemma RecipeSkipped(slugify: string -> string, f: PdfFile)
    ensures RecipePassage(slugify, f).None? <==>
      forall i :: 0 <= i < |f.pages| ==> AllSpace(f.pages[i].GetOr(""))
  {
    AllSpaceFlatten(PageTexts(f.pages));
  }

  /** A recipe passage: id `recipe_<slug>`, the stripped joined text (a
      contiguous, non-blank-edged piece of the page texts), metadata with
      exactly the keys `type`, `file` and `is_veggie`, the flag being set
      when the stem or the text is vegetarian on its own. */
  lemma RecipeShape(slugify: string -> string, f: PdfFile)
    requires RecipePassage(slugify, f).Some?
    ensures var p := RecipePassage(slugify, f).value;
      var joined := Flatten(PageTexts(f.pages));
      && p.id == RecipeId(slugify(Stem(f.name)))
      && p.text != []
      && !IsSpace(p.text[0]) && !IsSpace(p.text[|p.text| - 1])
      && Contains(joined, p.text)
      && p.metadata.Keys == {"type", "file", "is_veggie"}
      && p.metadata["type"] == Str("recipe")
      && p.metadata["file"] == Str(f.name)
      && p.metadata["is_veggie"] == Bool(IsVeggie(Stem(f.name)) || IsVeggie(p.text))
  {
    var p := RecipePassage(slugify, f).value;
    var joined := Flatten(PageTexts(f.pages));
    JoinedFlag(Stem(f.name), p.text);
    OccursAtContains(joined, p.text, LeadingSpace(joined));
  }

  // ---------------------------------------------------------------------
  // Allergen pages

  /** `f"Source : {path.name}, page {i + 1}\n"`. */
  function AllergenHeader(name: string, i: nat): string
  {
    "Source : " + name + ", page " + NatToString(i + 1) + "\n"
  }

  /** The passage of page `i` of an allergen file, or `None` when the page
      has no text or at most `MinAllergenChars` characters after stripping. */
  function AllergenPassage(slugify: string -> string, f: PdfFile, i: nat): Option<Passage>
    requires i < |f.pages|
  {
    match f.pages[i]
    case None => None
    case Some(content) =>
      if content != [] && |Strip(content)| > MinAllergenChars then
        Some(Passage(AllergenId(slugify(Stem(f.name)), i), AllergenHeader(f.name, i) + content,
          map["type" := Str("allergen"), "file" := Str(f.name), "page" := Int(i + 1),
              "is_veggie" := Bool(IsVeggie(content))]))
      else None
  }

  /** A page of `f` that gets indexed: it has a text, and that text is
      longer than `MinAllergenChars` characters once stripped. */
  predicate Kept(f: PdfFile, i: nat)
  {
    i < |f.pages| && f.pages[i].Some? && |Strip(f.pages[i].value)| > MinAllergenChars
  }

  /** A page is indexed exactly when it is `Kept`; the separate test for an
      empty text never decides anything. */
  lemma AllergenKept(slugify: string -> string, f: PdfFile, i: nat)
    requires i < |f.pages|
    ensures AllergenPassage(slugify, f, i).Some? <==> Kept(f, i)
  {
  }

  /** The header names the source and is followed by the page text
      unchanged; the page number can be read back from the header. */
  lemma HeaderFraming(name: string, i: nat, content: string)
    ensures var text := AllergenHeader(name, i) + content;
      && |content| <= |text|
      && text[|text| - |content|..] == content
      && text[..9] == "Source : "
      && ParseNat(text[|text| - |content| - |NatToString(i + 1)| - 1..|text| - |content| - 1]) == i + 1
  {
    var text := AllergenHeader(name, i) + content;
    var digits := NatToString(i + 1);
    var head := "Source : " + name + ", page ";
    assert text == head + digits + "\n" + content;
    assert text[|text| - |content| - |digits| - 1..|text| - |content| - 1] == digits;
    ParseNatToString(i + 1);
  }

  /** Whether a page is indexed, and the flag and page number it gets,
      depend on the page alone: two files holding the same text at page `i`
      agree on all three, whatever their names. The flag is the flag of the
      passage text with the header cut off. */
  lemma AllergenShape(slugify: string -> string, f: PdfFile, g: PdfFile, i: nat)
    requires i < |f.pages| && i < |g.pages| && f.pages[i] == g.pages[i]
    ensures AllergenPassage(slugify, f, i).Some? <==> AllergenPassage(slugify, g, i).Some?
    ensures AllergenPassage(slugify, f, i).Some? ==>
      var p := AllergenPassage(slugify, f, i).value;
      var q := AllergenPassage(slugify, g, i).value;
      && p.metadata["is_veggie"] == q.metadata["is_veggie"]
      && p.metadata["page"] == q.metadata["page"]
      && |AllergenHeader(f.name, i)| <= |p.text|
      && p.metadata["is_veggie"] == Bool(IsVeggie(p.text[|AllergenHeader(f.name, i)|..]))
  {
    if AllergenPassage(slugify, f, i).Some? {
      var p := AllergenPassage(slugify, f, i).value;
      assert p.text[|AllergenHeader(f.name, i)|..] == f.pages[i].value;
    }
  }

  /** The `page` metadata of an allergen passage is the number written after
      `_p` in its id. */
  lemma AllergenPageInId(slugify: string -> string, f: PdfFile, i: nat)
    requires i < |f.pages| && AllergenPassage(slugify, f, i).Some?
    ensures var p := AllergenPassage(slugify, f, i).value;
      var n := |"allergen_" + slugify(Stem(f.name)) + "_p"|;
      && n < |p.id|
      && (forall k :: 0 <= k < |p.id[n..]| ==> IsDigit(p.id[n..][k]))
      && p.metadata["page"] == Int(ParseNat(p.id[n..]))
  {
    var p := AllergenPassage(slugify, f, i).value;
    var n := |"allergen_" + slugify(Stem(f.name)) + "_p"|;
    assert p.id[n..] == NatToString(i + 1);
    ParseNatToString(i + 1);
  }

  /** A file named after the flag does not flag its pages: the header of
      every page of `veggie.pdf` contains "veggie", yet a page that holds no
      indicator term is not vegetarian. */
  lemma VeggieFileName(slugify: string -> string)
    ensures var f := PdfFile("veggie.pdf", [Some(seq(101, _ => 'x'))]);
      && AllergenPassage(slugify, f, 0).Some?
      && IsVeggie(AllergenPassage(slugify, f, 0).value.text)
      && AllergenPassage(slugify, f, 0).value.metadata["is_veggie"] == Bool(false)
  {
    var content := seq(101, _ => 'x');
    PlainPage(content);
    VeggieHeader("veggie.pdf", content);
  }

  /** A page of 101 `x`s is kept and holds no indicator term. */
  lemma PlainPage(content: string)
    requires content == seq(101, _ => 'x')
    ensures |Strip(content)| > MinAllergenChars
    ensures !IsVeggie(content)
  {
    assert !IsSpace(content[0]) && !IsSpace(content[100]);
    assert Strip(content) == content;
    assert Lower(content) == content;
    forall k | 0 <= k < |VeggieKeywords|
      ensures !Contains(content, VeggieKeywords[k])
    {
      FirstLetterAbsent(content, VeggieKeywords[k]);
    }
  }

  /** The header of page 1 of `veggie.pdf` flags any text it heads. */
  lemma VeggieHeader(name: string, content: string)
    requires name == "veggie.pdf"
    ensures IsVeggie(AllergenHeader(name, 0) + content)
  {
    var w := "veggie";
    assert Lower(w) == w by {
      forall k | 0 <= k < |w|
        ensures Lower(w)[k] == w[k]
      {
        assert LowerChar(w[k]) == w[k];
      }
    }
    assert OccursAt(w, VeggieKeywords[2], 0);
    OccursAtContains(w, VeggieKeywords[2], 0);
    var after := ".pdf, page " + NatToString(1) + "\n" + content;
    Monotone("Source : ", w, after);
    assert name == w + ".pdf";
    assert AllergenHeader(name, 0) + content == "Source : " + w + after;
  }
}
