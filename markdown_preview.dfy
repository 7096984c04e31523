/**
 * The markdown preview of the newsletter content: the content is split on
 * image tokens into `parts` (the captured references interleaved, as a
 * JavaScript `split` with a capturing group does), the references are listed
 * separately in `images`, and each index of `parts` shows the part as text and
 * `images[index]` as an image, each under its own condition.
 */
module MarkdownPreview {
  import opened Wrappers
  import opened JsText
  import opened ImageToken

  /** `content.split(/!\[.*?\]\((.*?)\)/)`. */
  function Parts(content: string): seq<string> {
    Split(content)
  }

  /**
   * `content.match(/…/g)?.map(img => { const m = img.match(/…/); return m ? m[1] : null }) || []`:
   * for each matched token text, the capture of matching it again (None for `null`).
   */
  function Images(content: string): seq<Option<string>> {
    var whole := MatchAll(content);
    seq(|whole|, j requires 0 <= j < |whole| => FirstCapture(whole[j]))
  }

  /** What the view at one index of `parts` shows: an optional text and an optional image. */
  datatype Block = Block(text: Option<string>, image: Option<string>)

  /** `part.trim() && !part.includes('data:image/')` decides whether the trimmed part is shown as text. */
  function PartText(part: string): Option<string> {
    if Trim(part) != "" && !Includes(part, "data:image/") then Some(Trim(part)) else None
  }

  /** `images[index] &&`: the reference at that index, when there is one and it is not empty. */
  function ImageAt(images: seq<Option<string>>, index: nat): Option<string> {
    if index < |images| && images[index].Some? && images[index].value != "" then images[index] else None
  }

  /** `parts.map((part, index) => …)`: one block per part. */
  function Render(content: string): seq<Block> {
    var parts := Parts(content);
    var images := Images(content);
    seq(|parts|, j requires 0 <= j < |parts| => Block(PartText(parts[j]), ImageAt(images, j)))
  }

  /** The block at index j shows the part at j as text and images[j] as an image, each under its own condition. */
  lemma RenderAt(content: string, j: nat)
    requires j < |Parts(content)|
    ensures |Render(content)| == |Parts(content)|
    ensures Render(content)[j] == Block(PartText(Parts(content)[j]), ImageAt(Images(content), j))
  {
  }

  /** The even-indexed parts: the text around the tokens. */
  function EvenParts(parts: seq<string>): (gaps: seq<string>)
    requires |parts| % 2 == 1
    ensures |gaps| == |parts| / 2 + 1
    ensures forall j :: 0 <= j < |gaps| ==> gaps[j] == parts[2 * j]
  {
    seq(|parts| / 2 + 1, j requires 0 <= j < |parts| / 2 + 1 => parts[2 * j])
  }

  /**
   * With k tokens in the content, `parts` has 2k+1 entries; the even ones hold the
   * text between tokens, which itself holds no token, and index 2i+1 holds the
   * reference that `images[i]` also holds.
   */
  lemma PartsShape(content: string)
    ensures var parts, images, whole := Parts(content), Images(content), MatchAll(content);
      |parts| == 2 * |whole| + 1 && |images| == |whole|
    ensures forall i :: 0 <= i < |Images(content)| ==> Images(content)[i] == Some(Parts(content)[2 * i + 1])
    ensures forall i :: 0 <= i < |Parts(content)| / 2 + 1 ==> HoldsNoToken(Parts(content)[2 * i])
  {
    var sc := ScanAll(content);
    var parts, whole := Parts(content), MatchAll(content);
    forall i | 0 <= i < |whole| ensures Images(content)[i] == Some(parts[2 * i + 1]) {
      RematchToken(sc.tokens[i]);
    }
    ScanGapsHoldNoToken(content, 0);
    forall i | 0 <= i < |parts| / 2 + 1 ensures HoldsNoToken(parts[2 * i]) {
      assert parts[2 * i] == sc.gaps[i];
    }
  }

  /** `images` lists each token's reference, in document order. */
  lemma ImagesAreReferences(content: string)
    ensures |Images(content)| == |ScanAll(content).tokens|
    ensures forall i :: 0 <= i < |Images(content)| ==> Images(content)[i] == Some(ScanAll(content).tokens[i].ref)
  {
    var sc := ScanAll(content);
    forall i | 0 <= i < |sc.tokens| ensures Images(content)[i] == Some(sc.tokens[i].ref) {
      RematchToken(sc.tokens[i]);
    }
  }

  /** Joining the even parts with the matched token texts gives back the content. */
  lemma SplitRoundTrip(content: string)
    ensures |Parts(content)| % 2 == 1
    ensures |EvenParts(Parts(content))| == |MatchAll(content)| + 1
    ensures Weave(EvenParts(Parts(content)), MatchAll(content)) == content
  {
    var sc := ScanAll(content);
    var parts := Parts(content);
    assert EvenParts(parts) == sc.gaps;
    assert content[0..] == content;
  }

  /** Content without any token gives the single part `content`, no image, and one block. */
  lemma NoTokenSingleBlock(content: string)
    requires forall i: nat, k: nat, m: nat :: !MatchesAt(content, i, k, m)
    ensures Parts(content) == [content] && Images(content) == []
    ensures Render(content) == [Block(PartText(content), None)]
  {
    if FindToken(content, 0).Some? {
      var i := FindToken(content, 0).value.0;
      TokenAtSpec(content, i);
      assert false;
    }
    assert content[0..] == content;
  }

  /**
   * An image is shown at index j exactly when the j-th token has a non-empty
   * reference: images occupy the first k indices, not the places of their tokens.
   */
  lemma ImagesShownByIndex(content: string, j: nat)
    requires j < |Render(content)|
    ensures Render(content)[j].image.Some? <==>
      j < |ScanAll(content).tokens| && ScanAll(content).tokens[j].ref != ""
    ensures Render(content)[j].image.Some? ==> Render(content)[j].image.value == ScanAll(content).tokens[j].ref
  {
    ImagesAreReferences(content);
  }

  /**
   * A token whose reference is not blank and is not a `data:image/` URL also
   * shows that reference as text, at index 2i+1; a `data:image/` reference never does.
   */
  lemma ReferenceShownAsText(content: string, i: nat)
    requires i < |ScanAll(content).tokens|
    ensures 2 * i + 1 < |Render(content)|
    ensures Render(content)[2 * i + 1].text == PartText(ScanAll(content).tokens[i].ref)
  {
    var sc := ScanAll(content);
    assert Parts(content)[2 * i + 1] == sc.tokens[i].ref;
    RenderAt(content, 2 * i + 1);
  }
}
