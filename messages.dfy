/** The chat texts the handler sends or edits in. The status message is one
    message edited in place; its texts are the in-progress ones (Processing,
    Progress) and the final ones (AlreadyDownloaded, Completed). Two further
    texts go out as new replies: the request for a set sticker and the error
    notice. */
module Messages {
  import opened Naming

  type MessageId = nat

  datatype Text =
    | AskForSetSticker
    | Processing
    | AlreadyDownloaded(pack: string)
    | Progress(pack: string, done: nat, total: nat)
    | Completed(pack: string)
    | Failure

  /** Texts after which the handler sends nothing more. */
  predicate IsFinal(t: Text) {
    t.AlreadyDownloaded? || t.Completed? || t.Failure?
  }

  /** The symbol a text begins with; the request for a set sticker has none.
      Every symbol is followed by a space. */
  function Symbol(t: Text): (r: string)
    ensures r == [] <==> t == AskForSetSticker
    ensures r != [] ==> r[|r| - 1] == ' '
  {
    match t
    case AskForSetSticker => ""
    case Processing => "\U{1F504} "
    case AlreadyDownloaded(_) => "ℹ️ "
    case Progress(_, _, _) => "\U{1F504} "
    case Completed(_) => "✅ "
    case Failure => "❌ "
  }

  /** A set name in double quotes. */
  function Quoted(pack: string): string {
    "\"" + pack + "\""
  }

  /** The count line of a progress text. */
  function ProgressCount(done: nat, total: nat): string {
    "...\nDownloaded " + NatToString(done) + "/" + NatToString(total) + " stickers"
  }

  /** The words after the symbol. */
  function Words(t: Text): string
  {
    match t
    case AskForSetSticker => "Please send a sticker from a sticker set."
    case Processing => "Processing your sticker pack..."
    case AlreadyDownloaded(pack) =>
      "Sticker pack " + Quoted(pack) + " is already downloaded in your local device!"
    case Progress(pack, done, total) =>
      "Downloading " + Quoted(pack) + ProgressCount(done, total)
    case Completed(pack) =>
      "Sticker pack " + Quoted(pack) + " has been downloaded to your local device!"
    case Failure =>
      "An error occurred while processing your sticker pack. Please try again later."
  }

  /** `s` begins with `p`. */
  predicate StartsWith(s: string, p: string) {
    |p| <= |s| && s[..|p|] == p
  }

  /** The text the user sees: its symbol, then its words. */
  function Render(t: Text): (r: string)
    ensures StartsWith(r, Symbol(t))
    ensures |r| == |Symbol(t)| + |Words(t)|
  {
    var sym, w := Symbol(t), Words(t);
    assert (sym + w)[..|sym|] == sym;
    sym + w
  }

  /** The leading symbol of a rendered status tells a final text from an
      intermediate one: a status text starts with the symbol of "Processing"
      exactly when it is not final. */
  lemma FinalTextsDistinguishable(t: Text)
    requires t != AskForSetSticker
    ensures StartsWith(Render(t), Symbol(Processing)) <==> !IsFinal(t)
  {
    var r, p := Render(t), Symbol(Processing);
    if IsFinal(t) {
      assert r[0] == Symbol(t)[0] != p[0];
    }
  }

  /** `q` sits in `a + q + b` right after `a`. */
  lemma Infix(a: string, q: string, b: string)
    ensures (a + q + b)[|a|..|a| + |q|] == q
  {
  }

  /** The texts about a set quote its name right after their opening words. */
  lemma WordsQuoteSetName(t: Text)
    requires t.AlreadyDownloaded? || t.Completed? || t.Progress?
    ensures var k := if t.Progress? then |"Downloading "| else |"Sticker pack "|;
      var w := Words(t);
      k + |t.pack| + 2 <= |w| && w[k..k + |t.pack| + 2] == "\"" + t.pack + "\""
  {
    var q := Quoted(t.pack);
    match t
    case AlreadyDownloaded(pack) =>
      Infix("Sticker pack ", q, " is already downloaded in your local device!");
    case Completed(pack) =>
      Infix("Sticker pack ", q, " has been downloaded to your local device!");
    case Progress(pack, done, total) =>
      Infix("Downloading ", q, ProgressCount(done, total));
  }
}
