/**
 Environment-qualified topic names. The same name is qualified over and over: by the producer,
 by its writer, per cross-topic publish, by the consumer, and again for the dead-letter name.
 */
module KafkaTopics {
  import opened Collections
  import opened Wrappers

  // unicode.IsSpace
  predicate IsSpace(c: char) {
    || c == '\t' || c == '\n' || c == '\U{B}' || c == '\U{C}' || c == '\r' || c == ' '
    || c == '\U{85}' || c == '\U{A0}' || c == '\U{1680}' || '\U{2000}' <= c <= '\U{200A}'
    || c == '\U{2028}' || c == '\U{2029}' || c == '\U{202F}' || c == '\U{205F}' || c == '\U{3000}'
  }

  function TrimLeft(s: string): string {
    if s != [] && IsSpace(s[0]) then TrimLeft(s[1..]) else s
  }

  function TrimRight(s: string): string {
    if s != [] && IsSpace(s[|s| - 1]) then TrimRight(s[..|s| - 1]) else s
  }

  // strings.TrimSpace
  function TrimSpace(s: string): string {
    TrimRight(TrimLeft(s))
  }

  // strings.Contains
  predicate Contains(s: string, part: string) {
    exists i | 0 <= i <= |s| :: part <= s[i..]
  }

  function Qualify(topic: string, suffix: string): string {
    var t, s := TrimSpace(topic), TrimSpace(suffix);
    if t == "" || s == "" || HasSuffix(t, s) || Contains(t, s + ".") then t else t + s
  }

  // No white space at either end.
  predicate Trimmed(s: string) {
    s != [] ==> !IsSpace(s[0]) && !IsSpace(s[|s| - 1])
  }

  lemma {:induction false} TrimLeftEnds(s: string)
    ensures TrimLeft(s) != [] ==> !IsSpace(TrimLeft(s)[0])
    ensures s != [] && !IsSpace(s[|s| - 1]) ==> TrimLeft(s) != [] && TrimLeft(s)[|TrimLeft(s)| - 1] == s[|s| - 1]
  {
    if s != [] && IsSpace(s[0]) { TrimLeftEnds(s[1..]); }
  }

  lemma {:induction false} TrimRightEnds(s: string)
    requires s != [] ==> !IsSpace(s[0])
    ensures Trimmed(TrimRight(s)) && TrimRight(s) <= s
  {
    if s != [] && IsSpace(s[|s| - 1]) { TrimRightEnds(s[..|s| - 1]); }
  }

  lemma TrimSpaceTrims(s: string)
    ensures Trimmed(TrimSpace(s))
    ensures Trimmed(s) ==> TrimSpace(s) == s
  {
    TrimLeftEnds(s);
    TrimRightEnds(TrimLeft(s));
  }

  lemma ConcatTrimmed(a: string, b: string)
    requires Trimmed(a) && Trimmed(b) && a != [] && b != []
    ensures Trimmed(a + b) && TrimSpace(a + b) == a + b
  {
    assert (a + b)[0] == a[0] && (a + b)[|a + b| - 1] == b[|b| - 1];
    TrimSpaceTrims(a + b);
  }

  lemma ContainsPart(a: string, part: string, b: string)
    ensures Contains(a + part + b, part)
  {
    assert (a + part + b)[|a|..] == part + b;
    assert part <= (a + part + b)[|a|..];
  }

  lemma QualifyTrims(topic: string, suffix: string)
    ensures Trimmed(Qualify(topic, suffix)) && TrimSpace(Qualify(topic, suffix)) == Qualify(topic, suffix)
    ensures Qualify(topic, suffix) == "" <==> TrimSpace(topic) == ""
  {
    var t, s := TrimSpace(topic), TrimSpace(suffix);
    TrimSpaceTrims(topic);
    TrimSpaceTrims(suffix);
    TrimSpaceTrims(t);
    if t != "" && s != "" { ConcatTrimmed(t, s); }
  }

  predicate Blank(s: string) {
    forall i | 0 <= i < |s| :: IsSpace(s[i])
  }

  lemma {:induction false} TrimLeftCuts(s: string) returns (left: string)
    ensures s == left + TrimLeft(s) && Blank(left)
  {
    if s != [] && IsSpace(s[0]) {
      var rest := TrimLeftCuts(s[1..]);
      left := [s[0]] + rest;
      assert s == [s[0]] + s[1..];
    } else {
      left := "";
    }
  }

  lemma {:induction false} TrimRightCuts(s: string) returns (right: string)
    ensures s == TrimRight(s) + right && Blank(right)
  {
    if s != [] && IsSpace(s[|s| - 1]) {
      var rest := TrimRightCuts(s[..|s| - 1]);
      right := rest + [s[|s| - 1]];
      assert s == s[..|s| - 1] + [s[|s| - 1]];
    } else {
      right := "";
    }
  }

  // Trimming takes white space off both ends and nothing else.
  lemma TrimSpaceCuts(s: string) returns (left: string, right: string)
    ensures s == left + TrimSpace(s) + right && Blank(left) && Blank(right) && Trimmed(TrimSpace(s))
  {
    left := TrimLeftCuts(s);
    right := TrimRightCuts(TrimLeft(s));
    TrimSpaceTrims(s);
  }

  // The suffix ends the name, or stands in it right before a dot.
  predicate ShowsBetween(name: string, a: string, suffix: string, b: string) {
    name == a + suffix + b && (b == "" || b[0] == '.')
  }

  ghost predicate Shows(name: string, suffix: string) {
    exists a, b :: ShowsBetween(name, a, suffix, b)
  }

  lemma CarriedShows(t: string, s: string)
    requires HasSuffix(t, s) || Contains(t, s + ".")
    ensures Shows(t, s)
  {
    if HasSuffix(t, s) {
      assert ShowsBetween(t, t[..|t| - |s|], s, "");
    } else {
      var i :| 0 <= i <= |t| && s + "." <= t[i..];
      var rest := t[i..][|s| + 1..];
      assert t[i..] == s + "." + rest;
      assert t == t[..i] + s + ("." + rest);
      assert ShowsBetween(t, t[..i], s, "." + rest);
    }
  }

  lemma ShownIsCarried(t: string, a: string, s: string, b: string)
    requires ShowsBetween(t, a, s, b)
    ensures HasSuffix(t, s) || Contains(t, s + ".")
  {
    if b == "" {
      assert t[|t| - |s|..] == s;
    } else {
      assert b == "." + b[1..];
      assert t == a + (s + ".") + b[1..];
      ContainsPart(a, s + ".", b[1..]);
    }
  }

  /** What qualifying does: the trimmed topic with the trimmed suffix after it, unless the topic shows the suffix already or
      one of them is blank; so a name that is not blank always shows the suffix. */
  lemma QualifyMeans(topic: string, suffix: string)
    ensures
      var t, s, q := TrimSpace(topic), TrimSpace(suffix), Qualify(topic, suffix);
      && (q == t || q == t + s)
      && (t == "" || s == "" || Shows(t, s) ==> q == t)
      && (t != "" ==> Shows(q, s))
  {
    hide TrimSpace, HasSuffix, Contains;
    var t, s, q := TrimSpace(topic), TrimSpace(suffix), Qualify(topic, suffix);
    if Shows(t, s) {
      var a, b :| ShowsBetween(t, a, s, b);
      ShownIsCarried(t, a, s, b);
    }
    if s == "" {
      assert ShowsBetween(q, q, s, "");
    } else if HasSuffix(t, s) || Contains(t, s + ".") {
      CarriedShows(t, s);
    } else if t != "" {
      assert ShowsBetween(q, t, s, "");
    }
  }

  /** Qualifying is idempotent, for every topic and every suffix. */
  lemma QualifyIdempotent(topic: string, suffix: string)
    ensures Qualify(Qualify(topic, suffix), suffix) == Qualify(topic, suffix)
  {
    var t, s := TrimSpace(topic), TrimSpace(suffix);
    var q := Qualify(topic, suffix);
    QualifyTrims(topic, suffix);
    if q != t {
      assert q == t + s && q[|q| - |s|..] == s;
    }
  }

  // A name that already carries the suffix carries it visibly before ".dlq".
  lemma SuffixedContains(t: string, s: string)
    requires HasSuffix(t, s) || Contains(t, s + ".")
    ensures Contains(t + ".dlq", s + ".")
  {
    hide HasSuffix, Contains;
    CarriedShows(t, s);
    var a, b :| ShowsBetween(t, a, s, b);
    if b == "" {
      assert t + ".dlq" == a + (s + ".") + "dlq";
      ContainsPart(a, s + ".", "dlq");
    } else {
      assert b == "." + b[1..];
      assert t + ".dlq" == a + (s + ".") + (b[1..] + ".dlq");
      ContainsPart(a, s + ".", b[1..] + ".dlq");
    }
  }

  lemma QualifiedCarriesSuffix(topic: string, suffix: string)
    requires TrimSpace(topic) != "" && TrimSpace(suffix) != ""
    ensures var q, s := Qualify(topic, suffix), TrimSpace(suffix); HasSuffix(q, s) || Contains(q, s + ".")
  {
    var t, s := TrimSpace(topic), TrimSpace(suffix);
    assert HasSuffix(t + s, s);
  }

  // The dead-letter name derived from a consumer's topic.
  function DlqName(topic: string, suffix: string): string {
    Qualify(topic, suffix) + ".dlq"
  }

  /** Qualifying the derived dead-letter name changes nothing, exactly when the topic is not blank or the suffix
      happens to be blank or part of ".dlq" itself. */
  lemma DlqNameIsQualified(topic: string, suffix: string)
    ensures Qualify(DlqName(topic, suffix), suffix) == DlqName(topic, suffix)
        <==> var s := TrimSpace(suffix);
             TrimSpace(topic) != "" || s == "" || HasSuffix(".dlq", s) || Contains(".dlq", s + ".")
  {
    var q, s, name := Qualify(topic, suffix), TrimSpace(suffix), DlqName(topic, suffix);
    QualifyTrims(topic, suffix);
    TrimSpaceTrims(".dlq");
    if q == "" {
      assert name == ".dlq";
    } else {
      ConcatTrimmed(q, ".dlq");
      if s != "" {
        QualifiedCarriesSuffix(topic, suffix);
        SuffixedContains(q, s);
      }
    }
  }

  // A kafka-go writer, reduced to where it writes.
  datatype Writer = Writer(topic: string)

  class Producer {
    const topic: string
    const topicSuffix: string
    const requireKey: bool
    const writer: Writer
    var extraWriters: map<string, Writer>

    // Every writer writes to the qualified name it is filed under.
    ghost predicate Valid()
      reads this
    {
      && writer.topic == topic == Qualify(topic, topicSuffix)
      && forall t | t in extraWriters :: extraWriters[t].topic == t == Qualify(t, topicSuffix)
    }

    // The topic is qualified once here and once more for the writer.
    constructor (suffix: string, topic: string, requireKey: bool)
      ensures Valid() && this.topic == Qualify(topic, suffix) && topicSuffix == suffix
      ensures this.requireKey == requireKey && extraWriters == map[]
    {
      QualifyIdempotent(topic, suffix);
      this.topic := Qualify(topic, suffix);
      topicSuffix := suffix;
      this.requireKey := requireKey;
      writer := Writer(Qualify(Qualify(topic, suffix), suffix));
      extraWriters := map[];
    }

    // The writer PublishJSONTo uses: the bound one for a blank or equal name, else a cached one, which a keyed
    // producer refuses.
    method Route(topic: string) returns (w: Option<Writer>)
      requires Valid()
      modifies this
      ensures Valid()
      ensures w.None? <==> requireKey && TrimSpace(topic) != "" && Qualify(topic, topicSuffix) != this.topic
      ensures w.Some? ==> w.value.topic == if TrimSpace(topic) == "" then this.topic else Qualify(topic, topicSuffix)
      ensures w.None? ==> extraWriters == old(extraWriters)
      ensures forall t | t in old(extraWriters) :: t in extraWriters && extraWriters[t] == old(extraWriters)[t]
    {
      QualifyTrims(topic, topicSuffix);
      var name := Qualify(topic, topicSuffix);
      if name == "" || name == this.topic {
        return Some(writer);
      }
      if requireKey {
        return None;
      }
      var extra := WriterFor(name);
      QualifyIdempotent(topic, topicSuffix);
      return Some(extra);
    }

    method WriterFor(topic: string) returns (w: Writer)
      requires Valid()
      modifies this
      ensures Valid() && w.topic == Qualify(topic, topicSuffix)
      ensures w.topic in extraWriters && extraWriters[w.topic] == w
      ensures forall t | t in old(extraWriters) :: t in extraWriters && extraWriters[t] == old(extraWriters)[t]
    {
      QualifyIdempotent(topic, topicSuffix);
      var name := Qualify(topic, topicSuffix);
      if name in extraWriters {
        return extraWriters[name];
      }
      w := Writer(name);
      extraWriters := extraWriters[name := w];
    }
  }

  // The consumer's dead-letter topic is its dead-letter producer's topic, for every non-blank topic.
  method NewDlqProducer(suffix: string, topic: string) returns (p: Producer, dlqTopic: string)
    ensures fresh(p) && p.Valid()
    ensures dlqTopic == DlqName(topic, suffix)
    ensures TrimSpace(topic) != "" ==> p.topic == dlqTopic
  {
    DlqNameIsQualified(topic, suffix);
    dlqTopic := Qualify(topic, suffix) + ".dlq";
    p := new Producer(suffix, dlqTopic, false);
  }
}
