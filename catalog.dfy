/** The font catalog as the Google Fonts listing endpoint returns it, and the
    client-side filter that keeps the families declaring the Hebrew subset. */
module Catalog {

  type Bytes = seq<bv8>

  /** The subset the downloader asks for and filters on. */
  const Subset: string := "hebrew"

  /** One element of the listing's `items` array. */
  datatype Font = Font(family: string, subsets: seq<string>, files: map<string, string>)

  /** The decoded body of a listing reply: an `items` array, an object without
      that key, or a body that is not JSON (carrying the decoder's message). */
  datatype Listing = Items(items: seq<Font>) | NoItems | Unparsable(reason: string)

  /** What the catalog request yields: a reply with its status, raw text and
      decoded body, or a transport failure with its message. */
  datatype CatalogReply =
    | CatalogReply(status: int, text: string, listing: Listing)
    | CatalogUnreachable(reason: string)

  /** The listing URL for an API key; the request itself already names the subset. */
  function CatalogUrl(apiKey: string): (url: string)
    ensures |url| > |Subset|
    ensures url[|url| - |Subset|..] == Subset
  {
    "https://www.googleapis.com/webfonts/v1/webfonts?key=" + apiKey + "&subset=" + Subset
  }

  /** `items` with a missing key read as the empty list. */
  function Fonts(listing: Listing): (fonts: seq<Font>)
    requires !listing.Unparsable?
    ensures listing.NoItems? ==> fonts == []
  {
    if listing.Items? then listing.items else []
  }

  /** The families whose `subsets` list contains exactly "hebrew", in catalog order. */
  function HebrewFonts(fonts: seq<Font>): (kept: seq<Font>)
    ensures |kept| <= |fonts|
    ensures forall f :: f in kept <==> f in fonts && Subset in f.subsets
  {
    if fonts == [] then []
    else if Subset in fonts[0].subsets then [fonts[0]] + HebrewFonts(fonts[1..])
    else HebrewFonts(fonts[1..])
  }

  /** The URL of the regular style, or "" when the entry has none. */
  function RegularUrl(font: Font): (url: string)
    ensures url == "" <==> "regular" !in font.files || font.files["regular"] == ""
    ensures url != "" ==> url == font.files["regular"]
  {
    if "regular" in font.files then font.files["regular"] else ""
  }

  /** The name of the file a family is stored under inside the target folder. */
  function FileName(family: string): (name: string)
    ensures |name| == |family| + 4 && name[..|family|] == family
  {
    family + ".ttf"
  }

  /** Filtering distributes over concatenation, so it keeps catalog order. */
  lemma {:induction false} HebrewFontsAppend(a: seq<Font>, b: seq<Font>)
    ensures HebrewFonts(a + b) == HebrewFonts(a) + HebrewFonts(b)
  {
    if a == [] {
      assert a + b == b;
    } else {
      assert (a + b)[0] == a[0];
      assert (a + b)[1..] == a[1..] + b;
      HebrewFontsAppend(a[1..], b);
    }
  }

  /** A single entry is kept exactly when its subsets list contains "hebrew";
      a tag that merely contains the word (such as "hebrew-ext") does not count. */
  lemma HebrewFontsSingle(f: Font)
    ensures HebrewFonts([f]) == if Subset in f.subsets then [f] else []
  {
    assert [f][1..] == [];
  }
}
