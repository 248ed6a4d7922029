/** The substituter registry and the fallback chain over it: the list parsed
    from `nix config show substituters`, and the first-match walk that both
    versions of the proxy perform over it, strictly in list order. */
module Substituters {
  import Js

  /** `stdout.split(" ").map((s) => s.trim())`. */
  function Parse(stdout: string): (r: seq<string>)
    ensures |r| == |Js.Split(stdout, ' ')| && |r| >= 1
    ensures forall i :: 0 <= i < |r| ==> Js.Trimmed(r[i])
    ensures forall i :: 0 <= i < |r| ==> r[i] == Js.Trim(Js.Split(stdout, ' ')[i])
  {
    TrimAll(Js.Split(stdout, ' '))
  }

  /** `.map((s) => s.trim())`. */
  function TrimAll(pieces: seq<string>): (r: seq<string>)
    ensures |r| == |pieces|
    ensures forall i :: 0 <= i < |r| ==> r[i] == Js.Trim(pieces[i])
  {
    if pieces == [] then [] else [Js.Trim(pieces[0])] + TrimAll(pieces[1..])
  }

  /** A list printed as nix prints it, names separated by single spaces and
      a final newline, parses back to the same list: order is kept and
      repeated entries are not merged. */
  lemma ParseNixOutput(xs: seq<string>)
    requires |xs| >= 1
    requires forall i :: 0 <= i < |xs| ==> Js.Trimmed(xs[i]) && ' ' !in xs[i]
    ensures Parse(Js.JoinWith(xs, ' ') + "\n") == xs
  {
    var n := |xs|;
    var front := xs[..n - 1];
    var last := xs[n - 1];
    SplitLast(xs);
    var ys := SplitNixOutput(xs);
    TrimAllAppend(front, [last + "\n"]);
    forall i | 0 <= i < |front|
      ensures Js.Trimmed(front[i])
    {
      assert front[i] == xs[i];
    }
    TrimAllTrimmed(front);
    TrimKeeps(last);
    assert TrimAll([last + "\n"]) == [last];
    assert TrimAll(ys) == front + [last];
    assert Parse(Js.JoinWith(xs, ' ') + "\n") == TrimAll(ys);
  }

  lemma SplitLast<T>(xs: seq<T>)
    requires |xs| >= 1
    ensures xs[..|xs| - 1] + [xs[|xs| - 1]] == xs
  {
  }

  /** `map` distributes over concatenation. */
  lemma {:induction false} TrimAllAppend(a: seq<string>, b: seq<string>)
    ensures TrimAll(a + b) == TrimAll(a) + TrimAll(b)
  {
    if a == [] {
      assert a + b == b;
    } else {
      assert (a + b)[1..] == a[1..] + b;
      TrimAllAppend(a[1..], b);
    }
  }

  /** Pieces that are already trimmed come through unchanged. */
  lemma TrimAllTrimmed(a: seq<string>)
    requires forall i :: 0 <= i < |a| ==> Js.Trimmed(a[i])
    ensures TrimAll(a) == a
  {
    var r := TrimAll(a);
    forall i | 0 <= i < |a|
      ensures r[i] == a[i]
    {
      Js.TrimTrimmed(a[i]);
    }
  }

  /** The pieces of nix's output: the names, the last one still carrying the
      newline. */
  lemma SplitNixOutput(xs: seq<string>) returns (ys: seq<string>)
    requires |xs| >= 1
    requires forall i :: 0 <= i < |xs| ==> ' ' !in xs[i]
    ensures ys == xs[..|xs| - 1] + [xs[|xs| - 1] + "\n"]
    ensures ys == Js.Split(Js.JoinWith(xs, ' ') + "\n", ' ')
  {
    var n := |xs|;
    var last := xs[n - 1] + "\n";
    ys := xs[..n - 1] + [last];
    JoinWithLast(xs, "\n");
    forall i | 0 <= i < |ys|
      ensures ' ' !in ys[i]
    {
      if i == n - 1 {
        assert ys[i] == last;
      } else {
        assert ys[i] == xs[i];
      }
    }
    Js.SplitJoin(ys, ' ');
  }

  lemma TrimKeeps(x: string)
    requires Js.Trimmed(x)
    ensures Js.Trim(x) == x && Js.Trim(x + "\n") == x
  {
    Js.TrimTrimmed(x);
    assert Js.AllSpace("\n");
    assert [] + x + "\n" == x + "\n";
    Js.TrimOf([], x, "\n");
  }

  lemma {:induction false} JoinWithLast(xs: seq<string>, t: string)
    requires |xs| >= 1
    ensures Js.JoinWith(xs[..|xs| - 1] + [xs[|xs| - 1] + t], ' ') == Js.JoinWith(xs, ' ') + t
  {
    var ys := xs[..|xs| - 1] + [xs[|xs| - 1] + t];
    if |xs| > 1 {
      assert ys[1..] == xs[1..][..|xs| - 2] + [xs[|xs| - 1] + t];
      JoinWithLast(xs[1..], t);
    }
  }

  /** An empty configuration still yields one entry, the empty string. */
  lemma EmptyOutput()
    ensures Parse("\n") == [""] && Parse("") == [""]
  {
    assert Js.Split("\n", ' ') == ["\n"];
    assert Js.Trim("\n") == "" by {
      assert "\n" == [] + [] + "\n";
      Js.TrimOf([], [], "\n");
    }
  }

  /** What probing one substituter gives: the call throws, the substituter
      does not have the path, or it does (with what the proxy relays). */
  datatype Probe<H> = Throws | Passed | Hit(hit: H)

  /** Where the walk stops: at the first hit, at the first throw, or after
      the whole list. */
  datatype Scanned<H> = Found(index: nat, hit: H) | Aborted(index: nat) | Exhausted

  /** The chain: the first substituter that does not pass decides. */
  function Scan<H>(subs: seq<string>, probe: string -> Probe<H>): (r: Scanned<H>)
    ensures r.Found? ==> r.index < |subs| && probe(subs[r.index]) == Hit(r.hit)
    ensures r.Aborted? ==> r.index < |subs| && probe(subs[r.index]).Throws?
    ensures !r.Exhausted? ==> forall j :: 0 <= j < r.index ==> probe(subs[j]).Passed?
    ensures r.Exhausted? <==> forall j :: 0 <= j < |subs| ==> probe(subs[j]).Passed?
  {
    if subs == [] then Exhausted
    else
      match probe(subs[0])
      case Throws => Aborted(0)
      case Hit(h) => Found(0, h)
      case Passed =>
        match Scan(subs[1..], probe)
        case Found(k, h) => Found(k + 1, h)
        case Aborted(k) => Aborted(k + 1)
        case Exhausted => Exhausted
  }

  /** How many substituters the walk reaches. */
  function Reached<H>(r: Scanned<H>, n: nat): nat
  {
    match r
    case Found(k, _) => k + 1
    case Aborted(k) => k + 1
    case Exhausted => n
  }

  /** The walk stops at the first substituter that does not pass, and there
      only. */
  lemma {:induction false} ScanStopsAt<H>(subs: seq<string>, probe: string -> Probe<H>, i: nat)
    requires i < |subs| && !probe(subs[i]).Passed?
    requires forall j :: 0 <= j < i ==> probe(subs[j]).Passed?
    ensures Scan(subs, probe) == if probe(subs[i]).Throws? then Aborted(i) else Found(i, probe(subs[i]).hit)
  {
    if i > 0 {
      assert probe(subs[0]).Passed?;
      forall j | 0 <= j < i - 1
        ensures probe(subs[1..][j]).Passed?
      {
        assert subs[1..][j] == subs[j + 1];
      }
      ScanStopsAt(subs[1..], probe, i - 1);
    }
  }

  /** Substituters after the one where the walk stops play no part: any list
      that agrees up to it gives the same result. */
  lemma ScanPrefix<H>(subs: seq<string>, other: seq<string>, probe: string -> Probe<H>)
    requires !Scan(subs, probe).Exhausted?
    requires Scan(subs, probe).index < |other|
    requires other[..Scan(subs, probe).index + 1] == subs[..Scan(subs, probe).index + 1]
    ensures Scan(other, probe) == Scan(subs, probe)
  {
    var k := Scan(subs, probe).index;
    assert other[k] == subs[k] by {
      assert other[..k + 1][k] == subs[..k + 1][k];
    }
    forall j | 0 <= j < k
      ensures probe(other[j]).Passed?
    {
      assert other[..k + 1][j] == subs[..k + 1][j];
    }
    ScanStopsAt(other, probe, k);
  }

  /** The calls made while walking `subs`, in order, given the calls that
      probing one substituter makes. */
  function Contacts<C>(subs: seq<string>, calls: string -> seq<C>): seq<C>
  {
    if subs == [] then [] else Contacts(subs[..|subs| - 1], calls) + calls(subs[|subs| - 1])
  }

  /** The calls made for the walk that `Scan` describes. */
  function ScanContacts<H, C>(subs: seq<string>, probe: string -> Probe<H>, calls: string -> seq<C>): seq<C>
  {
    var n := Reached(Scan(subs, probe), |subs|);
    Contacts(subs[..if n <= |subs| then n else |subs|], calls)
  }

  /** When probing each substituter makes exactly one call, the walk over
      the first `n` makes those calls, one per substituter, in order. */
  lemma {:induction false} ContactsOfSingles<C>(subs: seq<string>, calls: string -> seq<C>, n: nat)
    requires n <= |subs|
    requires forall j :: 0 <= j < n ==> |calls(subs[j])| == 1
    ensures |Contacts(subs[..n], calls)| == n
    ensures forall j :: 0 <= j < n ==> Contacts(subs[..n], calls)[j] == calls(subs[j])[0]
  {
    if n > 0 {
      var prev := Contacts(subs[..n - 1], calls);
      assert subs[..n][..n - 1] == subs[..n - 1];
      ContactsOfSingles(subs, calls, n - 1);
      assert Contacts(subs[..n], calls) == prev + calls(subs[n - 1]);
    }
  }

  /** The walk over one more substituter makes that substituter's calls
      after the earlier ones. */
  lemma ContactsSnoc<C>(subs: seq<string>, calls: string -> seq<C>, i: nat)
    requires i < |subs|
    ensures Contacts(subs[..i + 1], calls) == Contacts(subs[..i], calls) + calls(subs[i])
  {
    assert subs[..i + 1][..i] == subs[..i];
  }

  /** Where the walk stops, with the calls made up to there. */
  lemma WalkStopsAt<H, C>(subs: seq<string>, probe: string -> Probe<H>, calls: string -> seq<C>, i: nat)
    requires i < |subs| && !probe(subs[i]).Passed?
    requires forall j :: 0 <= j < i ==> probe(subs[j]).Passed?
    ensures Scan(subs, probe) == if probe(subs[i]).Throws? then Aborted(i) else Found(i, probe(subs[i]).hit)
    ensures ScanContacts(subs, probe, calls) == Contacts(subs[..i], calls) + calls(subs[i])
  {
    ScanStopsAt(subs, probe, i);
    ContactsSnoc(subs, calls, i);
  }

  /** A walk in which every substituter passes makes every call. */
  lemma WalkExhaustedAt<H, C>(subs: seq<string>, probe: string -> Probe<H>, calls: string -> seq<C>)
    requires forall j :: 0 <= j < |subs| ==> probe(subs[j]).Passed?
    ensures Scan(subs, probe).Exhausted?
    ensures ScanContacts(subs, probe, calls) == Contacts(subs, calls)
  {
    assert subs[..|subs|] == subs;
  }
}
