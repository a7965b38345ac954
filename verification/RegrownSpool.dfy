/**
 When a scan loses mail: the offset of a mailbox that was cleared and has grown past
 it cuts the new text anywhere, inside a mail or inside a line. In mailboxes of
 written mails such a scan always loses some.
 */
module RegrownSpool {
  import opened Wrappers
  import opened Text
  import opened Grouping
  import opened Mbox
  import opened MailSpool
  import opened MboxWriter

  /** No end of a line, and no line but the first, looks like an envelope line. */
  predicate Plain(m: Mail) {
    forall i, c :: 0 <= i < |MailLines(m)| && 0 <= c <= |MailLines(m)[i]| && (i > 0 || c > 0) ==>
      !IsFromLine(MailLines(m)[i][c..])
  }

  predicate AllPlain(ms: seq<Mail>) {
    forall i :: 0 <= i < |ms| ==> WellFormed(ms[i]) && Plain(ms[i])
  }

  lemma EmptyLine()
    ensures !IsFromLine("")
  {
  }

  /** What is left of a mail without its beginning is no mail. */
  lemma CutMail(m: Mail, o: nat)
    requires WellFormed(m) && Plain(m) && 0 < o <= |WriteMail(m)|
    ensures Parse(WriteMail(m)[o..]) == []
  {
    WrittenLines(m);
    var lines := MailLines(m) + [""];
    var k, c := CutLines(WriteMail(m), o, '\n');
    var cut := LinesFrom(lines, k, c);
    forall i | 0 <= i < |cut| ensures !IsFromLine(cut[i]) {
      CutLine(m, k, c, i);
    }
    NoResult(IsFromLine, Message, cut);
  }

  lemma CutLine(m: Mail, k: nat, c: nat, i: nat)
    requires Plain(m) && k < |MailLines(m)| + 1 && c <= |(MailLines(m) + [""])[k]| && (k > 0 || c > 0)
    requires i < |MailLines(m)| + 1 - k
    ensures !IsFromLine(LinesFrom(MailLines(m) + [""], k, c)[i])
  {
    EmptyLine();
    if k + i == |MailLines(m)| {
      assert LinesFrom(MailLines(m) + [""], k, c)[i] == "";
    } else if i == 0 {
      assert (MailLines(m) + [""])[k] == MailLines(m)[k];
    } else {
      var line := MailLines(m)[k + i];
      assert LinesFrom(MailLines(m) + [""], k, c)[i] == line;
      assert line[0..] == line;
    }
  }

  /** A cut in front of a mail leaves that mail. */
  lemma CutBefore(front: string, last: string, o: nat)
    requires Complete(front) && Complete(last) && o < |front|
    ensures Parse((front + last)[o..]) == Parse(front[o..]) + Parse(last)
  {
    assert (front + last)[o..] == front[o..] + last;
    ParseAppend(front[o..], last);
  }

  lemma DropFront<T>(a: seq<T>, b: seq<T>, o: nat)
    requires |a| <= o <= |a + b|
    ensures (a + b)[o..] == b[o - |a|..] && b[0..] == b
  {
  }

  /** A cut at the start of a mail leaves it, a later one leaves nothing. */
  lemma CutWithin(front: string, m: Mail, o: nat)
    requires WellFormed(m) && Plain(m) && |front| <= o <= |front + WriteMail(m)|
    ensures |Parse((front + WriteMail(m))[o..])| == if o == |front| then 1 else 0
  {
    DropFront(front, WriteMail(m), o);
    if o == |front| {
      ReadBack(m);
    } else {
      CutMail(m, o - |front|);
    }
  }

  lemma FrontPlain(ms: seq<Mail>)
    requires ms != [] && AllPlain(ms)
    ensures AllPlain(ms[..|ms| - 1]) && WellFormed(ms[|ms| - 1]) && Plain(ms[|ms| - 1])
  {
    var front := ms[..|ms| - 1];
    assert forall i :: 0 <= i < |front| ==> front[i] == ms[i];
  }

  /** The text of some mails is complete, and one mail is read from one. */
  lemma MailboxWhole(ms: seq<Mail>)
    requires AllPlain(ms)
    ensures Whole(WriteAll(ms)) && |Parse(WriteAll(ms))| == |ms|
  {
    RoundTrip(ms);
  }

  /** A mailbox that is read from anywhere but its start yields fewer mails than it holds. */
  lemma {:induction false} CutMailbox(ms: seq<Mail>, o: nat)
    requires ms != [] && AllPlain(ms) && 0 < o <= |WriteAll(ms)|
    ensures |Parse(WriteAll(ms)[o..])| < |ms|
  {
    var n := |ms| - 1;
    var front, m := WriteAll(ms[..n]), ms[n];
    FrontPlain(ms);
    if o < |front| {
      CutMailbox(ms[..n], o);
      MailboxWhole(ms[..n]);
      ReadBack(m);
      CutBefore(front, WriteMail(m), o);
    } else {
      CutWithin(front, m, o);
      assert n == 0 ==> front == "";
    }
  }

  /**
   When everything read so far is behind the saved offset, a scan of a mailbox of
   such mails leaves collected exactly the delivered mails if and only if any clearing
   shows in the size.
   */
  lemma ScanIsComplete(s: State, ms: seq<Mail>, saved: bool)
    requires Inv(s) && s.repeated == [] && s.read == Mark(s)
    requires Content(s.file) == WriteAll(ms) && AllPlain(ms)
    ensures Next(s, Scan(saved)).collected == s.delivered <==> ClearingShows(s)
  {
    var text := Content(s.file);
    if ClearingShows(s) {
      ScanBooksBalance(s, saved);
    } else {
      ParseEmpty();
      assert text[..0] == "";
      assert s.collected == s.kept;
      RoundTrip(ms);
      CutMailbox(ms, s.offset);
    }
  }

  lemma ScanBooksBalance(s: State, saved: bool)
    requires Inv(s) && s.repeated == [] && s.read == Mark(s) && ClearingShows(s)
    ensures Next(s, Scan(saved)).collected == s.delivered
  {
    var text := Content(s.file);
    var s' := Next(s, Scan(saved));
    InvScan(s, saved);
    ParseEmpty();
    assert Part(text, Mark(s), s.read) == "";
    assert s'.repeated == [];
    assert text[..s'.read] == text;
  }
}
