/** The slide page's block layout (Slide.js): each raw element becomes a block, consecutive
    blocks with the same full-size and hidden flags are grouped into packs, and before that the
    first video and the tex blocks get extra props. */
module Slide {
  import opened Wrappers
  import opened Strings
  import Query

  const VideoType := "youtube"
  const CodeType := "code"
  const TextType := "html"
  const ImageType := "imagegallery"
  const SpoilerType := "spoiler"
  const TexType := "tex"

  /** The components of mapTypeToBlock. */
  datatype Component = Video | CodeMirror | Text | Image

  /** The props of a raw element other than its type and hide flag; the optional ones are
      absent until set. */
  datatype BlockProps = BlockProps(lines: seq<string>, content: Option<string>, autoplay: Option<bool>, openAnnotation: Option<bool>)

  /** A raw slide element as the server sends it. */
  datatype SlideElement = SlideElement(blockType: string, hide: Option<bool>, props: BlockProps)

  /** The result of mapElementToBlock. */
  datatype Block = Block(component: Option<Component>, fullSizeBlock: bool, hide: bool, props: BlockProps)

  datatype BlocksPack = BlocksPack(blocks: seq<Block>, hide: bool, fullSizeBlocksPack: bool)

  /** mapTypeToBlock. */
  function ComponentOf(typeName: string): (r: Option<Component>)
    ensures r.Some? <==> typeName in {VideoType, CodeType, TextType, TexType, ImageType, SpoilerType}
  {
    if typeName == VideoType then Some(Video)
    else if typeName == CodeType then Some(CodeMirror)
    else if typeName == TextType || typeName == TexType || typeName == SpoilerType then Some(Text)
    else if typeName == ImageType then Some(Image)
    else None
  }

  /** mapElementToBlock: the type is looked up in lower case, only video is full size, and a
      missing hide flag is false. */
  function MapElementToBlock(e: SlideElement): (b: Block)
    ensures b.fullSizeBlock <==> ToLower(e.blockType) == VideoType
    ensures b.hide == (e.hide.Some? && e.hide.value)
    ensures b.component == ComponentOf(ToLower(e.blockType))
    ensures b.props == e.props
  {
    var typeInLowerCase := ToLower(e.blockType);
    Block(ComponentOf(typeInLowerCase), typeInLowerCase == VideoType, e.hide.GetOr(false), e.props)
  }

  /** Upper- and lower-case spellings of a type map to the same block. */
  lemma MapElementIgnoresCase(e: SlideElement, f: SlideElement)
    requires ToLower(e.blockType) == ToLower(f.blockType) && e.hide == f.hide && e.props == f.props
    ensures MapElementToBlock(e) == MapElementToBlock(f)
  {
  }

  /** One line of a tex block as a paragraph. */
  function TexParagraph(line: string): string {
    "<p class=\"tex\">" + line + "</p>"
  }

  /** getContentFromTexLines: the left fold that appends each line's paragraph. */
  function TexContent(lines: seq<string>): string {
    if |lines| == 0 then "" else TexContent(lines[..|lines| - 1]) + TexParagraph(lines[|lines| - 1])
  }

  /** The content of the concatenated lines is the concatenated contents. */
  lemma {:induction false} TexContentAppend(a: seq<string>, b: seq<string>)
    ensures TexContent(a + b) == TexContent(a) + TexContent(b)
    decreases |b|
  {
    if |b| > 0 {
      TexContentAppend(a, b[..|b| - 1]);
      assert (a + b)[..|a + b| - 1] == a + b[..|b| - 1];
    } else {
      assert a + b == a;
    }
  }

  /** The content is the paragraphs of the lines, first line first. */
  lemma {:induction false} TexContentInOrder(lines: seq<string>)
    ensures |lines| > 0 ==> TexContent(lines) == TexParagraph(lines[0]) + TexContent(lines[1..])
  {
    if |lines| > 0 {
      assert lines == [lines[0]] + lines[1..];
      TexContentAppend([lines[0]], lines[1..]);
      assert [lines[0]][..0] == [];
    }
  }

  /** The index of the first element whose type is exactly the video type. */
  function FirstVideoIndex(elements: seq<SlideElement>): (r: Option<nat>)
    ensures r.Some? ==> (r.value < |elements| && elements[r.value].blockType == VideoType
      && forall j :: 0 <= j < r.value ==> elements[j].blockType != VideoType)
    ensures r.None? ==> forall j :: 0 <= j < |elements| ==> elements[j].blockType != VideoType
  {
    if |elements| == 0 then None
    else if elements[0].blockType == VideoType then Some(0)
    else
      var rest := FirstVideoIndex(elements[1..]);
      if rest.Some? then Some(rest.value + 1) else None
  }

  /** The element after the video props: the first video autoplays when asked to, and opens
      its annotation when it is the only element. */
  function WithVideoProps(elements: seq<SlideElement>, j: nat, autoplay: bool): (r: SlideElement)
    requires j < |elements|
    ensures r.blockType == elements[j].blockType && r.hide == elements[j].hide
    ensures r.props.lines == elements[j].props.lines && r.props.content == elements[j].props.content
    ensures r.props.autoplay == if autoplay && FirstVideoIndex(elements) == Some(j) then Some(true) else elements[j].props.autoplay
    ensures r.props.openAnnotation ==
      if FirstVideoIndex(elements) == Some(j) && |elements| == 1 then Some(true) else elements[j].props.openAnnotation
  {
    var e := elements[j];
    var isFirstVideo := FirstVideoIndex(elements) == Some(j);
    var e1 := if autoplay && isFirstVideo then e.(props := e.props.(autoplay := Some(true))) else e;
    if isFirstVideo && |elements| == 1 then e1.(props := e1.props.(openAnnotation := Some(true))) else e1
  }

  /** A tex element with its content built from its lines. */
  function WithTexContent(e: SlideElement): (r: SlideElement)
    ensures r.blockType == e.blockType && r.hide == e.hide
    ensures r.props.lines == e.props.lines && r.props.autoplay == e.props.autoplay && r.props.openAnnotation == e.props.openAnnotation
    ensures r.props.content == if e.blockType == TexType then Some(TexContent(e.props.lines)) else e.props.content
  {
    if e.blockType == TexType then e.(props := e.props.(content := Some(TexContent(e.props.lines)))) else e
  }

  /** The elements after addAdditionalPropsToBlocks. */
  function WithAdditionalProps(elements: seq<SlideElement>, autoplay: bool): (r: seq<SlideElement>)
    ensures |r| == |elements|
  {
    seq(|elements|, j requires 0 <= j < |elements| => WithTexContent(WithVideoProps(elements, j, autoplay)))
  }

  /** What addAdditionalPropsToBlocks sets: the first video autoplays when asked to, a sole
      video opens its annotation, every tex element gets the content of its lines, and the
      type, hide flag and lines of every element stay as they were. */
  lemma AdditionalPropsSet(elements: seq<SlideElement>, autoplay: bool)
    ensures var r := WithAdditionalProps(elements, autoplay);
      && (forall j :: 0 <= j < |r| ==>
        r[j].blockType == elements[j].blockType && r[j].hide == elements[j].hide && r[j].props.lines == elements[j].props.lines)
      && (autoplay && FirstVideoIndex(elements).Some? ==> r[FirstVideoIndex(elements).value].props.autoplay == Some(true))
      && (|elements| == 1 && elements[0].blockType == VideoType ==> r[0].props.openAnnotation == Some(true))
      && (forall j :: 0 <= j < |r| ==>
        r[j].props.content == (if elements[j].blockType == TexType then Some(TexContent(elements[j].props.lines)) else elements[j].props.content))
  {
    var r := WithAdditionalProps(elements, autoplay);
    forall j | 0 <= j < |r|
      ensures r[j].blockType == elements[j].blockType && r[j].hide == elements[j].hide && r[j].props.lines == elements[j].props.lines
      ensures r[j].props.content ==
        if elements[j].blockType == TexType then Some(TexContent(elements[j].props.lines)) else elements[j].props.content
    {
      var e := WithVideoProps(elements, j, autoplay);
      assert r[j] == WithTexContent(e);
    }
    if autoplay && FirstVideoIndex(elements).Some? {
      var j := FirstVideoIndex(elements).value;
      var e := WithVideoProps(elements, j, autoplay);
      assert r[j] == WithTexContent(e);
    }
    if |elements| == 1 && elements[0].blockType == VideoType {
      var e := WithVideoProps(elements, 0, autoplay);
      assert r[0] == WithTexContent(e);
    }
  }

  /** Only the first video changes its autoplay flag, and only when autoplay is asked for. */
  lemma AutoplayOnlyOnFirstVideo(elements: seq<SlideElement>, autoplay: bool, j: nat)
    requires j < |elements|
    requires WithAdditionalProps(elements, autoplay)[j].props.autoplay != elements[j].props.autoplay
    ensures autoplay && FirstVideoIndex(elements) == Some(j)
  {
    var e := WithVideoProps(elements, j, autoplay);
    assert WithAdditionalProps(elements, autoplay)[j] == WithTexContent(e);
    assert WithTexContent(e).props.autoplay == e.props.autoplay;
  }

  /** Only a video that is the only element opens its annotation. */
  lemma AnnotationOnlyForSoleVideo(elements: seq<SlideElement>, autoplay: bool, j: nat)
    requires j < |elements|
    requires WithAdditionalProps(elements, autoplay)[j].props.openAnnotation != elements[j].props.openAnnotation
    ensures |elements| == 1 && elements[0].blockType == VideoType
  {
    var e := WithVideoProps(elements, j, autoplay);
    assert WithAdditionalProps(elements, autoplay)[j] == WithTexContent(e);
    assert WithTexContent(e).props.openAnnotation == e.props.openAnnotation;
  }

  /** addAdditionalPropsToBlocks, which updates the elements in place; `search` is the page's
      parsed query string, whose `autoplay` parameter asks for autoplay when it is truthy. */
  method AddAdditionalPropsToBlocks(a: array<SlideElement>, search: Query.Query)
    modifies a
    ensures a[..] == WithAdditionalProps(old(a[..]), Query.Truthy(search, "autoplay"))
  {
    var autoplay := Query.Truthy(search, "autoplay");
    ghost var original := a[..];
    var firstVideo := FirstVideoIndex(a[..]);
    if autoplay && firstVideo.Some? {
      a[firstVideo.value] := a[firstVideo.value].(props := a[firstVideo.value].props.(autoplay := Some(true)));
    }
    if firstVideo.Some? && a.Length == 1 {
      a[firstVideo.value] := a[firstVideo.value].(props := a[firstVideo.value].props.(openAnnotation := Some(true)));
    }
    assert forall m :: 0 <= m < a.Length ==> a[m] == WithVideoProps(original, m, autoplay);
    for j := 0 to a.Length
      invariant forall m :: 0 <= m < j ==> a[m] == WithTexContent(WithVideoProps(original, m, autoplay))
      invariant forall m :: j <= m < a.Length ==> a[m] == WithVideoProps(original, m, autoplay)
    {
      if a[j].blockType == TexType {
        a[j] := a[j].(props := a[j].props.(content := Some(TexContent(a[j].props.lines))));
      }
    }
    assert a[..] == WithAdditionalProps(original, autoplay);
  }

  /** The blocks of the elements, in order. */
  function Blocks(elements: seq<SlideElement>): (r: seq<Block>)
    ensures |r| == |elements|
  {
    seq(|elements|, j requires 0 <= j < |elements| => MapElementToBlock(elements[j]))
  }

  /** Block `j` is element `j` mapped. */
  lemma BlocksAt(elements: seq<SlideElement>, j: nat)
    requires j < |elements|
    ensures Blocks(elements)[j] == MapElementToBlock(elements[j])
  {
  }

  /** Two blocks may share a pack. */
  predicate SameKind(a: Block, b: Block) {
    a.fullSizeBlock == b.fullSizeBlock && a.hide == b.hide
  }

  /** A pack is non-empty, of one kind, and carries its first block's flags. */
  predicate IsPack(p: BlocksPack) {
    && |p.blocks| > 0
    && p.hide == p.blocks[0].hide && p.fullSizeBlocksPack == p.blocks[0].fullSizeBlock
    && forall k :: 0 <= k < |p.blocks| ==> SameKind(p.blocks[k], p.blocks[0])
  }

  /** The blocks of all packs, in order. */
  function Flatten(packs: seq<BlocksPack>): seq<Block> {
    if |packs| == 0 then [] else Flatten(packs[..|packs| - 1]) + packs[|packs| - 1].blocks
  }

  /** The last block of `before` and the first of `after` are of different kinds. */
  predicate Separated(before: seq<Block>, after: seq<Block>) {
    |before| > 0 && |after| > 0 && !SameKind(before[|before| - 1], after[0])
  }

  /** Each pack after the first starts with a block of another kind than the block before it. */
  predicate Maximal(packs: seq<BlocksPack>) {
    forall j :: 0 < j < |packs| ==> Separated(packs[j - 1].blocks, packs[j].blocks)
  }

  lemma FlattenPush(packs: seq<BlocksPack>, p: BlocksPack)
    ensures Flatten(packs + [p]) == Flatten(packs) + p.blocks
  {
    assert (packs + [p])[..|packs|] == packs;
  }

  lemma MaximalPush(packs: seq<BlocksPack>, p: BlocksPack)
    requires Maximal(packs)
    requires |packs| > 0 ==> Separated(packs[|packs| - 1].blocks, p.blocks)
    ensures Maximal(packs + [p])
  {
    var q := packs + [p];
    forall j | 0 < j < |q|
      ensures Separated(q[j - 1].blocks, q[j].blocks)
    {
      if j < |packs| {
        assert q[j - 1] == packs[j - 1] && q[j] == packs[j];
      }
    }
  }

  /** getBlocksPack: the longest run of blocks of the kind of element i, starting at i. */
  method GetBlocksPack(elements: seq<SlideElement>, i: nat) returns (pack: BlocksPack)
    requires i < |elements|
    ensures IsPack(pack)
    ensures i + |pack.blocks| <= |elements| && pack.blocks == Blocks(elements)[i..i + |pack.blocks|]
    ensures i + |pack.blocks| == |elements| || !SameKind(Blocks(elements)[i + |pack.blocks|], pack.blocks[0])
  {
    var block := MapElementToBlock(elements[i]);
    var blocks := [block];
    var k := i + 1;
    while k < |elements|
      invariant i + 1 <= k <= |elements| && |blocks| == k - i
      invariant blocks == Blocks(elements)[i..k]
      invariant blocks[0] == block && forall m :: 0 <= m < |blocks| ==> SameKind(blocks[m], block)
    {
      var otherBlock := MapElementToBlock(elements[k]);
      if otherBlock.fullSizeBlock == block.fullSizeBlock && otherBlock.hide == block.hide {
        blocks := blocks + [otherBlock];
      } else {
        break;
      }
      k := k + 1;
    }
    pack := BlocksPack(blocks, block.hide, block.fullSizeBlock);
  }

  /** The pack loop of renderSlideBlocks: the packs cover the blocks in order, each pack is as
      long as it can be, and the index advances by the pack's length. */
  method PackSlideBlocks(elements: seq<SlideElement>) returns (packs: seq<BlocksPack>)
    ensures forall j :: 0 <= j < |packs| ==> IsPack(packs[j])
    ensures Flatten(packs) == Blocks(elements)
    ensures Maximal(packs)
  {
    ghost var all := Blocks(elements);
    packs := [];
    var i := 0;
    while i < |elements|
      invariant 0 <= i <= |elements|
      invariant forall j :: 0 <= j < |packs| ==> IsPack(packs[j])
      invariant Flatten(packs) == all[..i]
      invariant Maximal(packs)
      invariant |packs| > 0 && i < |elements| ==> Separated(packs[|packs| - 1].blocks, all[i..])
      decreases |elements| - i
    {
      var blocksPart := GetBlocksPack(elements, i);
      var n := |blocksPart.blocks|;
      MaximalPush(packs, blocksPart);
      FlattenPush(packs, blocksPart);
      assert all[..i + n] == all[..i] + blocksPart.blocks;
      i := i + n - 1;
      packs := packs + [blocksPart];
      i := i + 1;
    }
    assert all[..i] == all;
  }

  /** renderSlideBlocks up to the JSX: add the props in place, then pack the blocks. */
  method RenderSlideBlocks(a: array<SlideElement>, search: Query.Query) returns (packs: seq<BlocksPack>)
    modifies a
    ensures a[..] == WithAdditionalProps(old(a[..]), Query.Truthy(search, "autoplay"))
    ensures forall j :: 0 <= j < |packs| ==> IsPack(packs[j])
    ensures Flatten(packs) == Blocks(a[..])
    ensures Maximal(packs)
  {
    AddAdditionalPropsToBlocks(a, search);
    packs := PackSlideBlocks(a[..]);
  }
}
