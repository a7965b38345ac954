/**
 Reading a growing spool across scans: the agent keeps a byte offset, the mail
 system appends whole messages, and the mailbox may be cleared between scans.
 */
module MailSpool {
  import opened Wrappers
  import opened Text
  import opened Mbox

  function Content(file: Option<string>): string {
    if file.Some? then file.value else ""
  }

  /** Where a scan starts reading: an offset past the end means the mailbox was cleared. */
  function Start(size: nat, offset: nat): (n: nat)
    ensures n <= size
  {
    if offset > size then 0 else offset
  }

  lemma ParseEmpty()
    ensures Parse("") == []
  {
    assert Split("", '\n') == [""];
    assert !IsFromLine("");
    assert [""][1..] == [];
  }

  /** How the operating system serves a read; a short read meets a file that has shrunk to `got` unread bytes. */
  datatype Access = Fine | CannotOpen | CannotRead | Short(got: nat)

  datatype ReadResult = Unread(messages: seq<CronMail>, newOffset: nat) | Failed

  /** How many of n unread bytes arrive. */
  function Arriving(access: Access, n: nat): (k: nat)
    ensures k <= n
  {
    match access
    case Fine => n
    case Short(got) => if got < n then got else n
    case _ => 0
  }

  /** The bytes a read hands to the parser, with the new offset; one that delivers nothing at all fails. */
  datatype Delivery = NothingNew(size: nat) | Broken | Bytes(data: string, newOffset: nat)

  function DeliveryFrom(text: string, from: nat, access: Access): Delivery
    requires from <= |text|
  {
    var n := Arriving(access, |text| - from);
    if access == CannotOpen then Broken
    else if from == |text| then NothingNew(from)
    else if n == 0 then Broken
    else Bytes(text[from..from + n], from + n)
  }

  function Parsed(d: Delivery): ReadResult {
    match d
    case NothingNew(size) => Unread([], size)
    case Broken => Failed
    case Bytes(data, newOffset) => Unread(Parse(data), newOffset)
  }

  /** MailSpoolReader.ReadNew; an absent file is None. After a failure the caller keeps its offset. */
  method ReadNew(file: Option<string>, fromOffset: nat, access: Access) returns (r: ReadResult)
    ensures r == Parsed(DeliveryFrom(Content(file), Start(|Content(file)|, fromOffset), access))
  {
    if access == CannotOpen {
      return Failed;
    }
    if file.None? {
      return Unread([], 0);
    }
    var size := |file.value|;
    if size == 0 {
      return Unread([], 0);
    }
    var from := fromOffset;
    if from > size {
      from := 0;
    }
    if from == size {
      return Unread([], from);
    }
    var n := Arriving(access, size - from);
    if n == 0 {
      return Failed;
    }
    var data := file.value[from..from + n];
    assert DeliveryFrom(Content(file), Start(|Content(file)|, fromOffset), access) == Bytes(data, from + n);
    var messages := ParseMbox(data);
    r := Unread(messages, from + n);
  }

  /** A read that goes well parses all there is from the offset on, and moves the offset to the end. */
  lemma FullRead(text: string, from: nat)
    requires from <= |text|
    ensures Parsed(DeliveryFrom(text, from, Fine)) == Unread(Parse(text[from..]), |text|)
  {
    AllArrives(text, from);
    if text[from..] == "" {
      ParseEmpty();
    }
  }

  lemma AllArrives(text: string, from: nat)
    requires from <= |text|
    ensures DeliveryFrom(text, from, Fine) == if text[from..] == "" then NothingNew(|text|) else Bytes(text[from..], |text|)
  {
    assert text[from..|text|] == text[from..];
  }

  /** A short read is a full read of the text up to where it stopped. */
  lemma ShortRead(text: string, from: nat, got: nat)
    requires 0 < got && from + got <= |text|
    ensures DeliveryFrom(text, from, Short(got)) == DeliveryFrom(text[..from + got], from, Fine)
  {
    assert text[..from + got][from..from + got] == text[from..from + got];
  }

  // ------------------------------------------------------------------- the protocol

  /**
   The spool and the agent's view of it. `offset` is the saved one and `read` how far
   the scans have come in the present mailbox; `stale` says that the mailbox was
   cleared and no offset has been saved since. History: `delivered` lists the cron
   mails that were never deleted unread, `kept` those of earlier incarnations of the
   mailbox, `collected` what the scans have returned, and `repeated` what they
   returned although an earlier scan had.
   */
  datatype State = State(
    file: Option<string>,
    offset: nat,
    read: nat,
    stale: bool,
    kept: seq<CronMail>,
    delivered: seq<CronMail>,
    collected: seq<CronMail>,
    repeated: seq<CronMail>)

  /** A scan returns its mails even when saving the new offset fails. */
  datatype Step =
    | Deliver(mail: string)
    | Scan(saved: bool)
    | ScanFails
    | Clear(remove: bool)

  /** What the saved offset stands for in the present mailbox. */
  ghost function Mark(s: State): nat {
    if s.stale then 0 else s.offset
  }

  /** A clearing since the last saved offset shows in the size: the mailbox is empty, shorter than the offset, or was never read. */
  ghost predicate ClearingShows(s: State) {
    s.stale ==> Content(s.file) == "" || |Content(s.file)| < s.offset || s.offset == 0
  }

  ghost predicate Enabled(s: State, step: Step) {
    match step
    case Deliver(mail) => Complete(mail)
    case Scan(_) => ClearingShows(s)
    case ScanFails => true
    case Clear(_) => true
  }

  ghost function Part(text: string, i: nat, j: nat): string {
    if i <= j <= |text| then text[i..j] else ""
  }

  ghost function Next(s: State, step: Step): State {
    var text := Content(s.file);
    match step
    case Deliver(mail) =>
      s.(file := Some(text + mail), delivered := s.delivered + Parse(mail))
    case Scan(saved) =>
      var s' := s.(read := |text|,
                   collected := s.collected + Parse(text[Start(|text|, s.offset)..]),
                   repeated := s.repeated + Parse(Part(text, Mark(s), s.read)));
      if saved || |text| == s.offset then s'.(offset := |text|, stale := false) else s'
    case ScanFails => s
    case Clear(remove) =>
      var kept := s.kept + Parse(Part(text, 0, s.read));
      s.(file := if remove then None else Some(""), read := 0, stale := true, kept := kept, delivered := kept)
  }

  const Init := State(None, 0, 0, false, [], [], [], [])

  ghost function After(steps: seq<Step>): State {
    if steps == [] then Init else Next(After(steps[..|steps| - 1]), steps[|steps| - 1])
  }

  ghost predicate Run(steps: seq<Step>) {
    steps != [] ==> Run(steps[..|steps| - 1]) && Enabled(After(steps[..|steps| - 1]), steps[|steps| - 1])
  }

  lemma RunSnoc(steps: seq<Step>, step: Step)
    requires Run(steps) && Enabled(After(steps), step)
    ensures Run(steps + [step]) && After(steps + [step]) == Next(After(steps), step)
  {
    assert (steps + [step])[..|steps|] == steps;
  }

  // ---------------------------------------------------------------------- invariant

  ghost predicate Whole(a: string) {
    a == "" || Complete(a)
  }

  lemma ParseWhole(a: string, b: string)
    requires Whole(a) && Whole(b)
    ensures Whole(a + b) && Parse(a + b) == Parse(a) + Parse(b)
  {
    ParseEmpty();
    assert a == "" ==> a + b == b;
    assert b == "" ==> a + b == a;
    if a != "" && b != "" {
      ParseConcat(a, b);
    }
  }

  /** A text cut between messages at i and at j. */
  ghost predicate CutAt(text: string, i: nat, j: nat) {
    i <= j <= |text| && Whole(text[..i]) && Whole(text[i..j]) && Whole(text[j..])
  }

  /** `all` is counted by the mails in `once` and those in `again`; with none again it is the same list. */
  ghost predicate Tally(all: seq<CronMail>, once: seq<CronMail>, again: seq<CronMail>) {
    multiset(all) == multiset(once) + multiset(again) && (again == [] ==> all == once)
  }

  ghost predicate Inv(s: State) {
    var text := Content(s.file);
    CutAt(text, Mark(s), s.read) && Books(s, Parse(text), Parse(text[..s.read]))
  }

  lemma CutSlices<T>(a: seq<T>, i: nat, j: nat)
    requires i <= j <= |a|
    ensures a[..i] + a[i..j] == a[..j] && a[i..j] + a[j..] == a[i..] && a[..j] + a[j..] == a
  {
  }

  /** The mails of a text that is cut twice. */
  lemma CutParses(text: string, i: nat, j: nat)
    requires CutAt(text, i, j)
    ensures Whole(text) && Whole(text[..j]) && Whole(text[i..])
    ensures Parse(text[i..]) == Parse(text[i..j]) + Parse(text[j..])
    ensures Parse(text) == Parse(text[..j]) + Parse(text[j..])
  {
    CutSlices(text, i, j);
    ThreeParses(text[..i], text[i..j], text[j..], text[..j], text[i..], text);
  }

  lemma ThreeParses(a: string, b: string, c: string, ab: string, bc: string, all: string)
    requires Whole(a) && Whole(b) && Whole(c)
    requires a + b == ab && b + c == bc && ab + c == all
    ensures Whole(ab) && Whole(bc) && Whole(all)
    ensures Parse(bc) == Parse(b) + Parse(c) && Parse(all) == Parse(ab) + Parse(c)
  {
    ParseWhole(a, b);
    ParseWhole(b, c);
    ParseWhole(ab, c);
  }

  lemma AppendSlices<T>(a: seq<T>, i: nat, j: nat, b: seq<T>)
    requires i <= j <= |a|
    ensures (a + b)[..i] == a[..i] && (a + b)[i..j] == a[i..j] && (a + b)[..j] == a[..j]
    ensures (a + b)[j..] == a[j..] + b
  {
  }

  /** Appending mail leaves the read parts as they were and the unread part whole. */
  lemma DeliverText(text: string, i: nat, j: nat, mail: string)
    requires CutAt(text, i, j) && Whole(mail)
    ensures CutAt(text + mail, i, j)
    ensures Parse((text + mail)[..j]) == Parse(text[..j])
    ensures Parse(text + mail) == Parse(text) + Parse(mail)
  {
    CutParses(text, i, j);
    AppendSlices(text, i, j, mail);
    ParseWhole(text[j..], mail);
    ParseWhole(text, mail);
  }

  /** Everything read: the text may be cut at its end. */
  lemma CutAtEnd(text: string, i: nat, j: nat)
    requires CutAt(text, i, j)
    ensures CutAt(text, i, |text|) && CutAt(text, |text|, |text|)
    ensures text[..|text|] == text
  {
    CutParses(text, i, j);
    assert text[..|text|] == text && text[|text|..] == "" && text[|text|..|text|] == "";
    assert text[i..|text|] == text[i..];
  }

  /** What the history says of a text and of the part that was read. */
  ghost predicate Books(s: State, all: seq<CronMail>, read: seq<CronMail>) {
    s.delivered == s.kept + all && Tally(s.collected, s.kept + read, s.repeated)
  }

  lemma InvDeliver(s: State, mail: string)
    requires Inv(s) && Complete(mail)
    ensures Inv(Next(s, Deliver(mail)))
  {
    var text := Content(s.file);
    DeliverText(text, Mark(s), s.read, mail);
    Associative(s.kept, Parse(text), Parse(mail));
    assert Books(Next(s, Deliver(mail)), Parse(text + mail), Parse((text + mail)[..s.read]));
  }

  /** One more scan in the tally: `again` was returned before, `unread` was not. */
  lemma TallyScan(collected: seq<CronMail>, kept: seq<CronMail>, read: seq<CronMail>, repeated: seq<CronMail>,
                  again: seq<CronMail>, unread: seq<CronMail>)
    requires Tally(collected, kept + read, repeated)
    ensures Tally(collected + (again + unread), kept + (read + unread), repeated + again)
  {
    Associative(kept, read, unread);
    if repeated + again == [] {
      assert again == [] && repeated == [];
      assert again + unread == unread;
    }
  }

  /** What a scan returns when every clearing shows: what was returned before since the saved offset, and the rest. */
  lemma ScanReturns(s: State)
    requires Inv(s) && ClearingShows(s)
    ensures var text := Content(s.file);
            Parse(text[Start(|text|, s.offset)..]) == Parse(text[Mark(s)..s.read]) + Parse(text[s.read..])
  {
    var text := Content(s.file);
    CutParses(text, Mark(s), s.read);
    assert text[Start(|text|, s.offset)..] == text[Mark(s)..];
  }

  /** The history after a scan, from what it returns. */
  lemma ScanBooks(s: State, saved: bool, read: seq<CronMail>, again: seq<CronMail>, unread: seq<CronMail>)
    requires Books(s, read + unread, read)
    requires Parse(Content(s.file)[Start(|Content(s.file)|, s.offset)..]) == again + unread
    requires Parse(Part(Content(s.file), Mark(s), s.read)) == again
    ensures Books(Next(s, Scan(saved)), read + unread, read + unread)
  {
    TallyScan(s.collected, s.kept, read, s.repeated, again, unread);
  }

  lemma InvScan(s: State, saved: bool)
    requires Inv(s) && ClearingShows(s)
    ensures Inv(Next(s, Scan(saved)))
    ensures Next(s, Scan(saved)).read == |Content(s.file)|
  {
    var text := Content(s.file);
    ScanReturns(s);
    CutParses(text, Mark(s), s.read);
    ScanBooks(s, saved, Parse(text[..s.read]), Parse(text[Mark(s)..s.read]), Parse(text[s.read..]));
    CutAtEnd(text, Mark(s), s.read);
  }

  lemma EmptyText()
    ensures CutAt("", 0, 0) && Parse("") == [] && Parse(""[..0]) == []
  {
    ParseEmpty();
    assert ""[..0] == "" && ""[0..0] == "" && ""[0..] == "";
  }

  lemma NothingMore<T>(a: seq<T>)
    ensures a + [] == a
  {
  }

  lemma ClearedBooks(s: State, s': State, all: seq<CronMail>, read: seq<CronMail>)
    requires Books(s, all, read)
    requires s'.kept == s.kept + read == s'.delivered && s'.collected == s.collected && s'.repeated == s.repeated
    ensures Books(s', [], [])
  {
    NothingMore(s'.kept);
  }

  lemma InvClear(s: State, remove: bool)
    requires Inv(s)
    ensures Inv(Next(s, Clear(remove)))
  {
    var text := Content(s.file);
    var s' := Next(s, Clear(remove));
    var read := Parse(text[..s.read]);
    EmptyText();
    assert Part(text, 0, s.read) == text[..s.read];
    NothingMore(s.kept + read);
    ClearedBooks(s, s', Parse(text), read);
  }

  lemma {:induction false} RunInv(steps: seq<Step>)
    requires Run(steps)
    ensures Inv(After(steps))
  {
    if steps == [] {
      EmptyText();
      assert Books(Init, [], []);
    } else {
      var n := |steps| - 1;
      RunInv(steps[..n]);
      var s := After(steps[..n]);
      match steps[n]
      case Deliver(mail) => InvDeliver(s, mail);
      case Scan(saved) => InvScan(s, saved);
      case ScanFails =>
      case Clear(remove) => InvClear(s, remove);
    }
  }

  // ------------------------------------------------------------------------ results

  /**
   However deliveries, scans, failed scans, failed offset writes and clearings
   interleave, each scan leaves collected every delivered mail once, and the repeated
   ones again; so it is the delivered mails, each once and in order, exactly if no
   scan has repeated any.
   */
  lemma {:induction false} ScanCollectsAll(steps: seq<Step>)
    requires Run(steps) && steps != [] && steps[|steps| - 1].Scan?
    ensures var s := After(steps);
            && multiset(s.collected) == multiset(s.delivered) + multiset(s.repeated)
            && (s.collected == s.delivered <==> s.repeated == [])
  {
    var front, last := steps[..|steps| - 1], steps[|steps| - 1];
    RunInv(front);
    InvScan(After(front), last.saved);
    AllRead(After(steps));
  }

  /** When everything is read, the books say how collected and delivered mails compare. */
  lemma AllRead(s: State)
    requires Inv(s) && s.read == |Content(s.file)|
    ensures multiset(s.collected) == multiset(s.delivered) + multiset(s.repeated)
    ensures s.collected == s.delivered <==> s.repeated == []
  {
    var text := Content(s.file);
    assert text[..s.read] == text;
    TallyMeans(s, Parse(text));
  }

  lemma TallyMeans(s: State, all: seq<CronMail>)
    requires Books(s, all, all)
    ensures multiset(s.collected) == multiset(s.delivered) + multiset(s.repeated)
    ensures s.collected == s.delivered <==> s.repeated == []
  {
    TallyLength(s.collected, s.delivered, s.repeated);
  }

  lemma TallyLength(all: seq<CronMail>, once: seq<CronMail>, again: seq<CronMail>)
    requires Tally(all, once, again)
    ensures |all| == |once| + |again|
  {
    assert |multiset(all)| == |multiset(once)| + |multiset(again)|;
  }

  /** A scan adds the unread mails and nothing else, exactly if no mail lies between the saved offset and what was read. */
  lemma ScanRepeats(s: State, saved: bool)
    requires Inv(s) && Enabled(s, Scan(saved))
    ensures var text := Content(s.file);
            && Mark(s) <= s.read <= |text|
            && (Next(s, Scan(saved)).collected == s.collected + Parse(text[s.read..]) <==>
                  Parse(text[Mark(s)..s.read]) == [])
  {
    var text := Content(s.file);
    ScanReturns(s);
    var again, unread := Parse(text[Mark(s)..s.read]), Parse(text[s.read..]);
    if again == [] {
      assert again + unread == unread;
    } else {
      assert |s.collected + (again + unread)| != |s.collected + unread|;
    }
  }

  lemma SavedStep(s: State, step: Step)
    requires Mark(s) == s.read && s.repeated == [] && (step.Scan? ==> step.saved)
    ensures Mark(Next(s, step)) == Next(s, step).read && Next(s, step).repeated == []
  {
    ParseEmpty();
    var text := Content(s.file);
    assert Part(text, Mark(s), s.read) == "";
  }

  /** As long as every offset is saved, that never happens: each scan leaves collected what was delivered. */
  lemma {:induction false} SavedRunsAreExact(steps: seq<Step>)
    requires Run(steps) && forall i :: 0 <= i < |steps| && steps[i].Scan? ==> steps[i].saved
    ensures Mark(After(steps)) == After(steps).read && After(steps).repeated == []
    ensures steps != [] && steps[|steps| - 1].Scan? ==> After(steps).collected == After(steps).delivered
  {
    if steps != [] {
      var n := |steps| - 1;
      SavedRunsAreExact(steps[..n]);
      SavedStep(After(steps[..n]), steps[n]);
      if steps[n].Scan? {
        ScanCollectsAll(steps);
      }
    }
  }

  /** Without clearing, the delivered mails are what one parse of the file returns. */
  lemma {:induction false} NeverCleared(steps: seq<Step>)
    requires Run(steps) && forall i :: 0 <= i < |steps| ==> !steps[i].Clear?
    ensures After(steps).kept == [] && !After(steps).stale
    ensures After(steps).delivered == Parse(Content(After(steps).file))
  {
    RunInv(steps);
    NothingKept(steps);
    KeptFirst(After(steps), Parse(Content(After(steps).file)));
  }

  lemma {:induction false} NothingKept(steps: seq<Step>)
    requires forall i :: 0 <= i < |steps| ==> !steps[i].Clear?
    ensures After(steps).kept == [] && !After(steps).stale
  {
    if steps != [] {
      NothingKept(steps[..|steps| - 1]);
    }
  }

  lemma KeptFirst(s: State, all: seq<CronMail>)
    requires s.delivered == s.kept + all && s.kept == []
    ensures s.delivered == all
  {
  }

  /** A scan reads exactly the text behind what the saved offset stands for, if and only if every clearing shows. */
  lemma ScanReadsUnread(s: State)
    requires Inv(s)
    ensures var text := Content(s.file);
            text[Start(|text|, s.offset)..] == text[Mark(s)..] <==> ClearingShows(s)
  {
    var text := Content(s.file);
    if s.stale {
      assert |text[Start(|text|, s.offset)..]| == |text| - Start(|text|, s.offset);
      assert |text[0..]| == |text|;
    }
  }

  // ----------------------------------------------------------------------- witnesses

  lemma FirstScan(x: string, saved: bool)
    requires Complete(x)
    ensures Run([Deliver(x), Scan(saved)])
    ensures After([Deliver(x), Scan(saved)])
         == State(Some(x), if saved then |x| else 0, |x|, false, [], Parse(x), Parse(x), [])
  {
    ParseEmpty();
    assert "" + x == x && x[0..] == x && Part(x, 0, 0) == "";
    RunSnoc([], Deliver(x));
    assert [] + [Deliver(x)] == [Deliver(x)];
    assert After([Deliver(x)]) == State(Some(x), 0, 0, false, [], Parse(x), [], []);
    RunSnoc([Deliver(x)], Scan(saved));
    assert [Deliver(x)] + [Scan(saved)] == [Deliver(x), Scan(saved)];
  }

  /** When saving the offset fails, the next scan returns the same mails again. */
  lemma {:induction false} UnsavedOffsetRepeats(x: string)
    requires Complete(x) && Parse(x) != []
    ensures var steps := [Deliver(x), Scan(false)] + [Scan(true)]; var s := After(steps);
            Run(steps) && s.delivered == Parse(x) && s.collected == Parse(x) + Parse(x)
  {
    FirstScan(x, false);
    RunSnoc([Deliver(x), Scan(false)], Scan(true));
    assert x[0..] == x;
  }

  /** Clearing a mailbox read to its end and delivering y to it. */
  lemma {:induction false} ClearedAndGrown(steps: seq<Step>, y: string)
    requires Run(steps) && Complete(y)
    ensures Run(steps + [Clear(false), Deliver(y)])
    ensures After(steps + [Clear(false), Deliver(y)]) == Next(Next(After(steps), Clear(false)), Deliver(y))
  {
    var a := steps + [Clear(false)];
    RunSnoc(steps, Clear(false));
    assert Enabled(After(a), Deliver(y));
    RunSnoc(a, Deliver(y));
    assert a + [Deliver(y)] == steps + [Clear(false), Deliver(y)];
  }

  lemma ClearThenDeliver(x: string, y: string, px: seq<CronMail>)
    requires px == Parse(x)
    ensures Next(Next(State(Some(x), |x|, |x|, false, [], px, px, []), Clear(false)), Deliver(y))
         == State(Some(y), |x|, 0, true, px, px + Parse(y), px, [])
  {
    assert "" + y == y && Part(x, 0, |x|) == x && [] + px == px;
  }

  /** A scan that starts at the end of a mailbox with unread mail reads none of it. */
  lemma UnreadSkipped(s: State, y: string, read: seq<CronMail>, unread: seq<CronMail>)
    requires s == State(Some(y), |y|, 0, true, read, read + unread, read, []) && y != "" && unread != []
    ensures !Enabled(s, Scan(true)) && Next(s, Scan(true)).collected == s.collected != s.delivered
  {
    ParseEmpty();
    assert y[|y|..] == "";
  }

  /**
   The guard on Scan is needed: when a cleared mailbox has grown back to at least
   the saved offset, the scan skips mail. Here a mailbox holding x is collected,
   cleared, and holds y of the same length when scanned again.
   */
  lemma {:induction false} RegrownMailboxLosesMail(x: string, y: string)
    requires Complete(x) && Complete(y) && |x| == |y| && Parse(y) != []
    ensures var steps := [Deliver(x), Scan(true)] + [Clear(false), Deliver(y)]; var s := After(steps);
            Run(steps) && !Enabled(s, Scan(true)) && Next(s, Scan(true)).collected == s.collected != s.delivered
  {
    FirstScan(x, true);
    ClearedAndGrown([Deliver(x), Scan(true)], y);
    ClearThenDeliver(x, y, Parse(x));
    UnreadSkipped(After([Deliver(x), Scan(true)] + [Clear(false), Deliver(y)]), y, Parse(x), Parse(y));
  }
}
