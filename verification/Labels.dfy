/** The textual form of references: `cluster:service` joined and split on colons. */
module Labels {
  import opened Prelude

  const COLON := ':'

  /** JavaScript's `split(":")`: the pieces between colons, at least one. */
  function Split(text: string): (parts: seq<string>)
    ensures parts != []
    ensures forall i :: 0 <= i < |parts| ==> COLON !in parts[i]
    ensures COLON !in text ==> parts == [text]
  {
    if text == "" then [""]
    else
      var rest := Split(text[1..]);
      if text[0] == COLON then [""] + rest
      else
        assert text == [text[0]] + text[1..];
        [[text[0]] + rest[0]] + rest[1..]
  }

  function Label(cluster: string, service: string): string {
    cluster + [COLON] + service
  }

  /** `[cname, sname] = text.split(":")`; a piece that is not there is undefined. */
  function Read(text: string): (string, Option<string>) {
    var parts := Split(text);
    (parts[0], if |parts| > 1 then Some(parts[1]) else None)
  }

  /** `[did, dcluster] = text.split(":").reverse()`. */
  function ReadReversed(text: string): (string, Option<string>) {
    var parts := Split(text);
    (parts[|parts| - 1], if |parts| > 1 then Some(parts[|parts| - 2]) else None)
  }

  lemma {:induction false} SplitJoin(a: string, b: string)
    requires COLON !in a
    ensures Split(Label(a, b)) == [a] + Split(b)
  {
    var text := Label(a, b);
    if a == "" {
      assert text[1..] == b;
    } else {
      assert text[1..] == Label(a[1..], b) && text[0] == a[0];
      assert forall x :: x in a[1..] ==> x in a;
      SplitJoin(a[1..], b);
      assert [a[0]] + a[1..] == a;
    }
  }

  lemma {:induction false} SplitFirst(text: string)
    requires COLON in text
    ensures |Split(text)| > 1 && |Split(text)[0]| < |text|
  {
    if text[0] != COLON {
      assert COLON in text[1..];
      SplitFirst(text[1..]);
    }
  }

  lemma {:induction false} SplitShort(text: string)
    ensures |Split(text)[0]| <= |text|
  {
    if text != "" {
      SplitShort(text[1..]);
    }
  }

  /** A label is read back exactly when neither part contains a colon. */
  lemma {:induction false} LabelRoundTrip(cluster: string, service: string)
    ensures Read(Label(cluster, service)) == (cluster, Some(service)) <==> COLON !in cluster && COLON !in service
  {
    if COLON !in cluster {
      SplitJoin(cluster, service);
      assert Split(Label(cluster, service))[1] == Split(service)[0];
      if COLON in service {
        SplitFirst(service);
      }
    } else {
      assert COLON !in Read(Label(cluster, service)).0;
    }
  }

  /** A reference with or without a cluster, read from the right. */
  lemma ReferenceRoundTrip(cluster: string, service: string)
    requires COLON !in cluster && COLON !in service
    ensures ReadReversed(service) == (service, None)
    ensures ReadReversed(Label(cluster, service)) == (service, Some(cluster))
  {
    SplitJoin(cluster, service);
  }
}
