/**
 The roster file between operator and daemon: `uid:principal:keytab` lines as the operator prints them
 (operator/internal/tenant/aggregate.go) and as the daemon reads them (daemon/pkg/watcher/watcher.go).
 */
module RosterFile {
  import opened Common
  import opened Text
  import opened Aggregate
  import opened AggregateTheorems

  /** The keytab and cache paths of a request are `keytab` and `krb5cc_<uid>` under fixed directories. */
  datatype TicketRequest = TicketRequest(uid: int, principal: string, keytab: string)

  datatype ParseError = Malformed | InvalidUid | EmptyField | LineTooLong

  datatype LineResult = Skipped | Request(req: TicketRequest) | Bad(error: ParseError)

  /** `ParseRosterLine`. */
  function ParseRosterLine(line: string): LineResult {
    var trimmed := TrimSpace(line);
    if trimmed == "" || trimmed[0] == '#' then Skipped
    else
      var parts := Split(trimmed, ':');
      if |parts| != 3 then Bad(Malformed)
      else
        var principal, keytab := TrimSpace(parts[1]), TrimSpace(parts[2]);
        match Atoi(TrimSpace(parts[0]))
        case None => Bad(InvalidUid)
        case Some(uid) =>
          if principal == "" || keytab == "" then Bad(EmptyField) else Request(TicketRequest(uid, principal, keytab))
  }

  /******* Lines of a file *******/

  /** `bufio.MaxScanTokenSize`, in bytes. */
  const MAX_TOKEN := 65536

  /** Length of the UTF-8 encoding of a character. */
  function Utf8Length(c: char): nat {
    if c < '\U{80}' then 1 else if c < '\U{800}' then 2 else if c < '\U{10000}' then 3 else 4
  }

  function ByteLength(s: string): nat {
    if s == [] then 0 else Utf8Length(s[0]) + ByteLength(s[1..])
  }

  /** Where the first line of `s` ends. */
  function LineEnd(s: string): (n: nat)
    ensures n <= |s| && (n < |s| ==> s[n] == '\n')
    ensures '\n' !in s[..n]
  {
    if s == [] || s[0] == '\n' then 0
    else
      var n := LineEnd(s[1..]);
      assert s[..n + 1] == [s[0]] + s[1..][..n];
      n + 1
  }

  /** The scanner strips one carriage return from the end of a line. */
  function DropCr(line: string): string {
    if line != "" && line[|line| - 1] == '\r' then line[..|line| - 1] else line
  }

  function AfterLine(s: string): (rest: string)
    ensures s != "" ==> |rest| < |s|
  {
    if LineEnd(s) < |s| then s[LineEnd(s) + 1..] else ""
  }

  /** The requests and errors of a whole file; an overlong line ends the scan. */
  datatype Parsed = Parsed(reqs: seq<TicketRequest>, errs: seq<ParseError>)

  function WithLine(r: LineResult, rest: Parsed): Parsed {
    match r
    case Skipped => rest
    case Request(req) => Parsed([req] + rest.reqs, rest.errs)
    case Bad(e) => Parsed(rest.reqs, [e] + rest.errs)
  }

  function ParseFile(content: string): Parsed
    decreases |content|
  {
    if content == "" then Parsed([], [])
    else
      var line := content[..LineEnd(content)];
      if ByteLength(line) >= MAX_TOKEN then Parsed([], [LineTooLong])
      else WithLine(ParseRosterLine(DropCr(line)), ParseFile(AfterLine(content)))
  }

  lemma AppendLine(reqs: seq<TicketRequest>, errs: seq<ParseError>, r: LineResult, rest: Parsed)
    ensures var next := WithLine(r, rest);
            Parsed(reqs + next.reqs, errs + next.errs) ==
            match r
            case Skipped => Parsed(reqs + rest.reqs, errs + rest.errs)
            case Request(req) => Parsed(reqs + [req] + rest.reqs, errs + rest.errs)
            case Bad(e) => Parsed(reqs + rest.reqs, errs + [e] + rest.errs)
  {
    if r.Request? { assert reqs + ([r.req] + rest.reqs) == reqs + [r.req] + rest.reqs; }
    if r.Bad? { assert errs + ([r.error] + rest.errs) == errs + [r.error] + rest.errs; }
  }

  /** `ParseRoster`. */
  method ParseRoster(content: string) returns (reqs: seq<TicketRequest>, errs: seq<ParseError>)
    ensures Parsed(reqs, errs) == ParseFile(content)
  {
    reqs, errs := [], [];
    var rest := content;
    while rest != ""
      invariant ParseFile(content) == Parsed(reqs + ParseFile(rest).reqs, errs + ParseFile(rest).errs)
      decreases |rest|
    {
      var line := rest[..LineEnd(rest)];
      if ByteLength(line) >= MAX_TOKEN {
        errs := errs + [LineTooLong];
        return;
      }
      AppendLine(reqs, errs, ParseRosterLine(DropCr(line)), ParseFile(AfterLine(rest)));
      match ParseRosterLine(DropCr(line)) {
        case Bad(e) => errs := errs + [e];
        case Skipped =>
        case Request(req) => reqs := reqs + [req];
      }
      rest := AfterLine(rest);
    }
  }

  /******* One line *******/

  predicate CleanField(s: string) { s != "" && Trimmed(s) && ':' !in s }

  lemma LineEnds(uid: int, principal: string, keytab: string)
    ensures var line := RosterLine(uid, principal, keytab);
            && line[0] != '#' && !IsSpace(line[0])
            && (keytab != "" ==> line[|line| - 1] == keytab[|keytab| - 1])
            && line == Format(uid) + [':'] + (principal + [':'] + keytab)
            && (keytab != "" && Trimmed(keytab) ==> TrimSpace(line) == line)
  {
    var line := RosterLine(uid, principal, keytab);
    assert line[0] == Format(uid)[0];
    TrimSpaceFixes(line);
  }

  lemma LineParts(uid: int, principal: string, keytab: string)
    ensures var parts := Split(RosterLine(uid, principal, keytab), ':');
            && (':' !in principal && ':' !in keytab ==> parts == [Format(uid), principal, keytab])
            && (':' in principal || ':' in keytab ==> |parts| > 3)
  {
    LineEnds(uid, principal, keytab);
    SplitHead(Format(uid), ':', principal + [':'] + keytab);
    SplitWhole(keytab, ':');
    if ':' in principal { SplitExtra(principal, ':', keytab); } else { SplitHead(principal, ':', keytab); }
  }

  /** Which lines are passed over, and which are reported as malformed. */
  lemma LineKinds(line: string)
    ensures var trimmed := TrimSpace(line);
            && (ParseRosterLine(line) == Skipped <==> trimmed == "" || trimmed[0] == '#')
            && (ParseRosterLine(line) == Bad(Malformed) <==> trimmed != "" && trimmed[0] != '#' && multiset(trimmed)[':'] != 2)
  {
    SplitParts(TrimSpace(line), ':');
  }

  /** The trimmed line is three fields around two colons, whose trimmed content the request has. */
  ghost predicate Spells(line: string, req: TicketRequest, a: string, b: string, c: string) {
    && TrimSpace(line) == a + [':'] + (b + [':'] + c) && ':' !in a && ':' !in b && ':' !in c
    && Atoi(TrimSpace(a)) == Some(req.uid) && TrimSpace(b) == req.principal != "" && TrimSpace(c) == req.keytab != ""
  }

  lemma SpelledIsSplit(line: string, req: TicketRequest, a: string, b: string, c: string)
    requires Spells(line, req, a, b, c)
    ensures Split(TrimSpace(line), ':') == [a, b, c]
  {
    SplitHead(a, ':', b + [':'] + c);
    SplitHead(b, ':', c);
    SplitWhole(c, ':');
    Reassociate(a, [':'], b + [':'] + c);
  }

  lemma SplitIsSpelled(trimmed: string)
    requires |Split(trimmed, ':')| == 3
    ensures var parts := Split(trimmed, ':');
            trimmed == parts[0] + [':'] + (parts[1] + [':'] + parts[2]) && ':' !in parts[0] && ':' !in parts[1] && ':' !in parts[2]
  {
    var parts := Split(trimmed, ':');
    SplitParts(trimmed, ':');
    assert parts[1..][1..] == [parts[2]] && Glue([parts[2]], ':') == parts[2];
    assert Glue(parts[1..], ':') == parts[1] + [':'] + parts[2];
    assert parts[0] in parts && parts[1] in parts && parts[2] in parts;
  }

  /** Exactly which request a line is read as, however it is spaced. */
  lemma RequestIff(line: string, req: TicketRequest)
    ensures ParseRosterLine(line) == Request(req) <==>
            TrimSpace(line) != "" && TrimSpace(line)[0] != '#' && exists a, b, c :: Spells(line, req, a, b, c)
  {
    if ParseRosterLine(line) == Request(req) {
      var parts := Split(TrimSpace(line), ':');
      SplitIsSpelled(TrimSpace(line));
      assert Spells(line, req, parts[0], parts[1], parts[2]);
    } else if a, b, c :| Spells(line, req, a, b, c) {
      SpelledIsSplit(line, req, a, b, c);
    }
  }

  /** A trimmed line of three trimmed parts. */
  lemma ParseParts(line: string, uid: int, u: string, principal: string, keytab: string)
    requires TrimSpace(line) == line && line != "" && line[0] != '#' && Split(line, ':') == [u, principal, keytab]
    requires TrimSpace(u) == u && TrimSpace(principal) == principal != "" && TrimSpace(keytab) == keytab != "" && Atoi(u) == Some(uid)
    ensures ParseRosterLine(line) == Request(TicketRequest(uid, principal, keytab))
  {
  }

  lemma CleanLineIsRead(uid: int, principal: string, keytab: string)
    requires IsInt64(uid) && CleanField(principal) && CleanField(keytab)
    ensures ParseRosterLine(RosterLine(uid, principal, keytab)) == Request(TicketRequest(uid, principal, keytab))
  {
    LineEnds(uid, principal, keytab);
    LineParts(uid, principal, keytab);
    AtoiFormat(uid);
    TrimSpaceFixes(Format(uid));
    TrimSpaceFixes(principal);
    TrimSpaceFixes(keytab);
    ParseParts(RosterLine(uid, principal, keytab), uid, Format(uid), principal, keytab);
  }

  /** What is read is always trimmed, non-empty and without colons. */
  lemma ReadLineIsClean(line: string)
    requires ParseRosterLine(line).Request?
    ensures Trimmed(ParseRosterLine(line).req.principal) && Trimmed(ParseRosterLine(line).req.keytab)
    ensures ParseRosterLine(line).req.principal != "" && ParseRosterLine(line).req.keytab != ""
    ensures |Split(TrimSpace(line), ':')| == 3
  {
    var parts := Split(TrimSpace(line), ':');
    TrimSpaceFixes(parts[1]);
    TrimSpaceFixes(parts[2]);
  }

  /** A printed line is read back exactly if both of its fields are non-empty, trimmed and free of colons. */
  lemma LineRoundTrip(uid: int, principal: string, keytab: string)
    requires IsInt64(uid)
    ensures ParseRosterLine(RosterLine(uid, principal, keytab)) == Request(TicketRequest(uid, principal, keytab))
            <==> CleanField(principal) && CleanField(keytab)
  {
    var line := RosterLine(uid, principal, keytab);
    if ParseRosterLine(line) == Request(TicketRequest(uid, principal, keytab)) {
      ReadLineIsClean(line);
      LineEnds(uid, principal, keytab);
      LineParts(uid, principal, keytab);
    } else if CleanField(principal) && CleanField(keytab) {
      CleanLineIsRead(uid, principal, keytab);
    }
  }

  /******* The whole file *******/

  /** What an accepted principal must look like for its line to survive the file. */
  predicate Printable(a: Accepted) {
    && IsInt64(a.principal.uid) && CleanField(a.principal.principal) && CleanField(a.filename)
    && '\n' !in a.principal.principal && '\n' !in a.filename
    && ByteLength(Line(a)) < MAX_TOKEN
  }

  function RequestOf(a: Accepted): TicketRequest {
    TicketRequest(a.principal.uid, a.principal.principal, a.filename)
  }

  function Requests(roster: seq<Accepted>): seq<TicketRequest> {
    seq(|roster|, i requires 0 <= i < |roster| => RequestOf(roster[i]))
  }

  lemma RequestsHead(roster: seq<Accepted>)
    requires roster != []
    ensures Requests(roster) == [RequestOf(roster[0])] + Requests(roster[1..])
  {
  }

  lemma {:induction false} BlobHead(roster: seq<Accepted>)
    requires roster != []
    ensures Blob(roster) == Row(roster[0]) + Blob(roster[1..])
  {
    var n := |roster| - 1;
    var tail := roster[1..];
    if n > 0 {
      BlobHead(roster[..n]);
      assert roster[..n][1..] == tail[..n - 1] && tail[n - 1] == roster[n];
      Reassociate(Row(roster[0]), Blob(tail[..n - 1]), Row(roster[n]));
    }
  }

  lemma {:induction false} FirstLine(line: string, rest: string)
    requires '\n' !in line
    ensures LineEnd(line + "\n" + rest) == |line|
  {
    var s := line + "\n" + rest;
    if line != "" {
      assert s[1..] == line[1..] + "\n" + rest;
      FirstLine(line[1..], rest);
    }
  }

  lemma ParseHead(line: string, rest: string)
    requires '\n' !in line && ByteLength(line) < MAX_TOKEN
    ensures ParseFile(line + "\n" + rest) == WithLine(ParseRosterLine(DropCr(line)), ParseFile(rest))
  {
    var content := line + "\n" + rest;
    FirstLine(line, rest);
    assert content[..|line|] == line && content[|line| + 1..] == rest;
  }

  /** A file is read line by line: each adds its request or its error before those of the rest, and an overlong one ends it. */
  lemma LineByLine(line: string, rest: string)
    requires '\n' !in line
    ensures var p, q := ParseFile(line + "\n" + rest), ParseFile(rest);
            if ByteLength(line) >= 65536 then p == Parsed([], [LineTooLong])
            else
              match ParseRosterLine(DropCr(line))
              case Skipped => p == q
              case Request(req) => p == Parsed([req] + q.reqs, q.errs)
              case Bad(e) => p == Parsed(q.reqs, [e] + q.errs)
  {
    var content := line + "\n" + rest;
    FirstLine(line, rest);
    assert content[..|line|] == line && content[|line| + 1..] == rest;
  }

  /** The last line may lack its line break, and a line may end in a carriage return as well. */
  lemma LineBreaks(line: string)
    requires '\n' !in line && line != ""
    ensures ParseFile(line) == ParseFile(line + "\n") && DropCr(line + "\r") == line
  {
    LineByLine(line, "");
    assert line + "\n" + "" == line + "\n";
    NoBreak(line);
    assert line[..|line|] == line;
  }

  lemma NoBreak(line: string)
    requires '\n' !in line
    ensures LineEnd(line) == |line|
  {
  }

  lemma OneLine(u: string, principal: string, keytab: string)
    requires '\n' !in u && '\n' !in principal && '\n' !in keytab
    ensures '\n' !in u + ":" + principal + ":" + keytab
  {
  }

  lemma KeepsEnd(line: string)
    requires line != "" && !IsSpace(line[|line| - 1])
    ensures DropCr(line) == line
  {
  }

  lemma PrintableLine(a: Accepted)
    requires Printable(a)
    ensures '\n' !in Line(a) && DropCr(Line(a)) == Line(a)
    ensures ParseRosterLine(Line(a)) == Request(RequestOf(a))
  {
    LineEnds(a.principal.uid, a.principal.principal, a.filename);
    CleanLineIsRead(a.principal.uid, a.principal.principal, a.filename);
    OneLine(Format(a.principal.uid), a.principal.principal, a.filename);
    KeepsEnd(Line(a));
  }

  predicate AllPrintable(roster: seq<Accepted>) { forall i :: 0 <= i < |roster| ==> Printable(roster[i]) }

  lemma HeadRoundTrip(a: Accepted, rest: string, tail: Parsed)
    requires Printable(a) && ParseFile(rest) == tail
    ensures ParseFile(Row(a) + rest) == Parsed([RequestOf(a)] + tail.reqs, tail.errs)
  {
    PrintableLine(a);
    ParseHead(Line(a), rest);
  }

  /** Printer and parser undo each other on rosters of printable principals. */
  lemma {:induction false} RosterRoundTrip(roster: seq<Accepted>)
    requires AllPrintable(roster)
    ensures ParseFile(Blob(roster)) == Parsed(Requests(roster), [])
  {
    if roster == [] {
      assert Requests(roster) == [];
    } else {
      var a, tail := roster[0], roster[1..];
      RosterRoundTrip(tail);
      BlobHead(roster);
      HeadRoundTrip(a, Blob(tail), Parsed(Requests(tail), []));
      RequestsHead(roster);
    }
  }

  lemma RosterRequests(ps: seq<Principal>, sources: seq<KeytabSource>)
    ensures var reqs := Requests(Roster(ps, sources));
            && (forall p :: p in ps && Included(ps, sources, p) ==> RequestOf(AcceptedOf(sources, p)) in reqs)
            && (forall req :: req in reqs ==> exists p :: p in ps && Included(ps, sources, p) && req == RequestOf(AcceptedOf(sources, p)))
  {
    var roster := Roster(ps, sources);
    RosterMembers(ps, sources);
    var reqs := Requests(roster);
    forall p | p in ps && Included(ps, sources, p) ensures RequestOf(AcceptedOf(sources, p)) in reqs {
      var i :| 0 <= i < |roster| && roster[i] == AcceptedOf(sources, p);
      assert reqs[i] == RequestOf(roster[i]);
    }
    forall req | req in reqs ensures exists p :: p in ps && Included(ps, sources, p) && req == RequestOf(AcceptedOf(sources, p)) {
      var i :| 0 <= i < |reqs| && reqs[i] == req;
      assert roster[i] in roster;
    }
  }

  /**
   End to end: the daemon reads the roster the operator wrote without errors, one request per included
   principal, by strictly ascending UID.
   */
  lemma AggregatedRosterRoundTrip(ps: seq<Principal>, sources: seq<KeytabSource>, r: Aggregation)
    requires Declares(ps, sources, r)
    requires AllPrintable(Roster(ps, sources))
    ensures var parsed := ParseFile(r.rosterBlob);
            && parsed.errs == []
            && (forall i, j :: 0 <= i < j < |parsed.reqs| ==> parsed.reqs[i].uid < parsed.reqs[j].uid)
            && (forall p :: p in ps && Included(ps, sources, p) ==> RequestOf(AcceptedOf(sources, p)) in parsed.reqs)
            && (forall req :: req in parsed.reqs ==>
                  exists p :: p in ps && Included(ps, sources, p) && req == RequestOf(AcceptedOf(sources, p)))
  {
    RosterRoundTrip(Roster(ps, sources));
    RosterAscends(ps, sources);
    RosterRequests(ps, sources);
  }
}
