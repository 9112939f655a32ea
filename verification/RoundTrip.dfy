/**
  Saving a document in raw format and loading it again with parse_default, in xml/pugixml.cpp.
*/
module RoundTrip {
  import opened Dom
  import opened Markup
  import MarkupParser
  import MarkupPieces
  import MarkupSpelling
  import MarkupStrings
  import MarkupPrinter

  /** The document that is loaded is the one that was saved. */
  method SaveThenLoad(ns: Arena, data: seq<MarkupPrinter.Data>, root: nat, ghost f: Forest)
    returns (status: MarkupParser.Status, elements: bool, loaded: seq<Tree>)
    requires MarkupPrinter.Ready(ns, data, root, f) && f.Cons? && ValidDocument(MarkupPrinter.ToTrees(f, data))
    ensures status == MarkupParser.Ok && elements && loaded == MarkupPrinter.ToTrees(f, data)
  {
    hide ValidAll, PrintAll, MarkupStrings.CleanAll, MarkupStrings.LoadAll, MarkupStrings.NodesAre, MarkupSpelling.SpellAll,
         MarkupSpelling.WriteAll, MarkupSpelling.GoodAll, MarkupSpelling.MatchedAll, MarkupSpelling.Outline, MarkupPieces.Document;
    var text := MarkupPrinter.NodeOutput(ns, data, root, f);
    ghost var trees := MarkupPrinter.ToTrees(f, data);
    assert trees != [];
    var buf := new char[|text|](i requires 0 <= i < |text| => text[i]);
    assert buf[..] == text;
    MarkupSpelling.DocumentIsSpelled(trees);
    MarkupStrings.ValidIsClean(trees);
    MarkupPieces.SpelledIsDocument(MarkupSpelling.SpellAll(trees));
    var nodes;
    ghost var read;
    status, elements, nodes, read := MarkupParser.Parse(buf, MarkupSpelling.SpellAll(trees));
    loaded := MarkupStrings.LoadAll(buf[..], nodes);
  }
}
