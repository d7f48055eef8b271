/** What a statement's first word says about it, in the words themselves. */
module SqlVerdict {
  import opened Options
  import opened SqlText
  import opened SqlClassify
  import SqlSplit
  import SqlWith
  import Sequences

  // ------------------------------------------------------------ reading the first word

  lemma {:induction false} RstripLetters(s: string)
    ensures Letters(Rstrip(s)) == Letters(s)
  {
    if s != "" && IsSpace(s[|s| - 1]) {
      var t, last := s[..|s| - 1], [s[|s| - 1]];
      RstripLetters(t);
      SqlWith.LettersStop(t, last);
      assert s == t + last;
    }
  }

  lemma RstripKeepsHead(s: string)
    requires s != "" && !IsSpace(s[0])
    ensures Rstrip(s) != "" && Rstrip(s)[0] == s[0]
  {
  }

  // Blanks around a statement do not change its first word.
  lemma StripKeepsVerb(s: string)
    ensures LeadingVerb(Strip(s)) == LeadingVerb(s)
  {
    var t := Lstrip(s);
    LstripBlank(s);
    RstripLetters(t);
    if t != "" { RstripKeepsHead(t); }
  }

  // The same letter, as a capital.
  predicate Capital(c: char, u: char) {
    'A' <= u <= 'Z' && (c == u || c as int == u as int + 0x20)
  }

  lemma {:induction false} LettersAre(word: string, rest: string, v: string)
    requires |v| == |word| && forall i :: 0 <= i < |word| ==> Capital(word[i], v[i])
    requires rest == "" || !IsLetter(rest[0])
    ensures Letters(word + rest) == word && Upper(word) == v
  {
    if word == "" {
      assert word + rest == rest;
    } else {
      LettersAre(word[1..], rest, v[1..]);
      assert (word + rest)[1..] == word[1..] + rest && Capital(word[0], v[0]);
    }
  }

  lemma {:induction false} GapStrips(gap: string, s: string)
    requires Blank(gap)
    ensures Lstrip(gap + s) == Lstrip(s)
  {
    if gap == "" {
      assert gap + s == s;
    } else {
      GapStrips(gap[1..], s);
      assert (gap + s)[1..] == gap[1..] + s;
    }
  }

  predicate Gap(s: string) { forall i :: 0 <= i < |s| ==> s[i] in {' ', '\t', '\n', '\r'} }

  lemma {:induction false} GapRstrips(s: string, gap: string)
    requires Blank(gap)
    ensures Rstrip(s + gap) == Rstrip(s)
  {
    if gap == "" {
      assert s + gap == s;
    } else {
      var n := |gap| - 1;
      GapRstrips(s, gap[..n]);
      assert (s + gap)[..|s| + n] == s + gap[..n];
    }
  }

  // Stripping takes the blanks around a text and nothing else.
  lemma StripReads(gap: string, core: string, gap': string)
    requires Gap(gap) && Gap(gap') && core != "" && !IsSpace(core[0]) && !IsSpace(core[|core| - 1])
    ensures Strip(gap + core + gap') == core
  {
    Sequences.Assoc(gap, core, gap');
    GapStrips(gap, core + gap');
    assert (core + gap')[0] == core[0];
    GapRstrips(core, gap');
  }

  // Behind blanks, the verb is the run of letters there, capitalised; anything else, a digit
  // say, ends it.
  lemma VerbReads(gap: string, word: string, rest: string, v: string)
    requires Gap(gap) && |v| == |word| && forall i :: 0 <= i < |word| ==> Capital(word[i], v[i])
    requires rest == "" || !('a' <= rest[0] <= 'z' || 'A' <= rest[0] <= 'Z')
    requires word != ""
    ensures LeadingVerb(gap + word + rest) == v
  {
    var s := word + rest;
    assert Capital(word[0], v[0]) && s[0] == word[0];
    Sequences.Assoc(gap, word, rest);
    GapStrips(gap, s);
    LettersAre(word, rest, v);
  }

  // Without a letter in front there is no verb.
  lemma NoVerbReads(gap: string, rest: string)
    requires Gap(gap)
    requires rest == "" || rest[0] in {'(', '\'', '"', '[', '@', '_', '-', '/', '*'} || '0' <= rest[0] <= '9'
    ensures LeadingVerb(gap + rest) == ""
  {
    GapStrips(gap, rest);
  }

  // ------------------------------------------------------------ the verdict in words

  predicate Reads(v: string) { v in {"SELECT", "EXPLAIN", "SHOW", "VALUES"} }

  predicate Writes(v: string) {
    v in {"ALTER", "CALL", "CREATE", "DELETE", "DROP", "EXEC", "EXECUTE", "GRANT", "INSERT", "MERGE", "REINDEX",
          "REPLACE", "REVOKE", "TRUNCATE", "UPDATE", "VACUUM"}
  }

  lemma ListsAgree(v: string)
    ensures v in DESTRUCTIVE_VERBS <==> Writes(v)
    ensures v in READ_ONLY_VERBS <==> Reads(v) || v == "WITH"
    ensures !(v in DESTRUCTIVE_VERBS && v in READ_ONLY_VERBS)
  {
  }

  predicate Extra(extra: seq<string>, v: string) { exists i :: 0 <= i < |extra| && Upper(extra[i]) == v }

  // Destructive when the verb is one of the sixteen or one the caller added, whatever else it
  // is; read-only when it is one of the four; otherwise unknown.
  predicate Verdict(extra: seq<string>, v: string, k: Kind) {
    && (k == Destructive <==> Writes(v) || Extra(extra, v))
    && (k == ReadOnly <==> Reads(v) && !Extra(extra, v))
  }

  lemma ExtraListed(extra: seq<string>, v: string)
    ensures Extra(extra, v) <==> v in UpperAll(extra)
  {
  }

  lemma CleanedVerdict(extra: seq<string>, raw: string, cleaned: string, v: string)
    requires v == LeadingVerb(cleaned) && v != "WITH"
    ensures var st := ClassifyOne(extra, raw, cleaned);
            st.raw == raw && st.leadingVerb == v && Verdict(extra, v, st.kind)
  {
    ListsAgree(v);
    ExtraListed(extra, v);
  }

  // Every piece of every script, literals and comments included, that has anything left after
  // cleaning: one statement, judged by its first word.
  lemma PieceVerdict(extra: seq<string>, piece: string, v: string)
    requires !Blank(Clean(piece)) && v == LeadingVerb(Clean(piece)) && v != "WITH"
    ensures var ss := ClassifyPiece(extra, piece);
            |ss| == 1 && ss[0].raw == Strip(piece) && ss[0].leadingVerb == v && Verdict(extra, v, ss[0].kind)
  {
    var c := Clean(piece);
    BlankStrip(c);
    StripKeepsVerb(c);
    CleanedVerdict(extra, Strip(piece), Strip(c), v);
  }

  // A single plain statement is stopped exactly when its verb is not known to read, or is one
  // that the caller has declared destructive.
  lemma VerdictOfPlain(extra: seq<string>, s: string, v: string)
    requires Plain(s) && ';' !in s && !Blank(s) && v == LeadingVerb(s) && v != "WITH"
    ensures ScriptDestructive(extra, s) <==> Extra(extra, v) || !Reads(v)
    ensures exists k :: ClassifySpec(extra, s) == [Statement(Strip(s), v, k)] && Verdict(extra, v, k)
  {
    CleanPlain(s);
    SinglePiece(extra, s);
    PieceVerdict(extra, s, v);
    OnePiece(extra, s);
    var ss := ClassifyPiece(extra, s);
    assert ss == [Statement(Strip(s), v, ss[0].kind)];
    ReadsDoNotWrite(v);
  }

  lemma OnePiece(extra: seq<string>, s: string)
    ensures ClassifyPieces(extra, [s]) == ClassifyPiece(extra, s)
  {
    assert [s][..0] == [];
  }

  lemma ReadsDoNotWrite(v: string)
    ensures !(Reads(v) && Writes(v))
  {
    ListsAgree(v);
  }

  lemma KindInWords(extra: seq<string>, b: string)
    ensures var k := KindBehind(extra, b);
            && (k == Destructive <==> Writes(b) || Extra(extra, b))
            && (k == ReadOnly <==> (Reads(b) || b == "WITH") && !Extra(extra, b))
  {
    ListsAgree(b);
    ExtraListed(extra, b);
  }

  // A statement that starts with WITH is judged by the word behind the clause instead; there a
  // second WITH counts as reading.
  lemma WithVerdict(extra: seq<string>, raw: string, word: string, ctes: seq<SqlWith.Cte>, query: string, b: string)
    requires |word| == 4 && Upper(word) == "WITH" && !Extra(extra, "WITH")
    requires ctes != [] && forall i :: 0 <= i < |ctes| ==> SqlWith.WellFormed(ctes[i])
    requires ctes[0].head != "" && !IsLetter(ctes[0].head[0]) && !Leads(Lstrip(query), ',')
    requires b == if SqlWith.AnyColumns(ctes) then "AS" else LeadingVerb(query)
    ensures var st := ClassifyOne(extra, raw, word + SqlWith.Text(ctes, query));
            && st.raw == raw && st.leadingVerb == "WITH"
            && (st.kind == Destructive <==> Writes(b) || Extra(extra, b))
            && (st.kind == ReadOnly <==> (Reads(b) || b == "WITH") && !Extra(extra, b))
  {
    var with := "WITH";
    ExtraListed(extra, with);
    BodiesUnseen(extra, raw, word, ctes, query);
    KindInWords(extra, b);
    TextStarts(ctes, query);
    StartsWithWith(word, SqlWith.Text(ctes, query), with);
    WithNamed(extra, raw, word + SqlWith.Text(ctes, query), with);
  }

  lemma WithNamed(extra: seq<string>, raw: string, cleaned: string, with: string)
    requires with == "WITH" == LeadingVerb(cleaned)
    ensures ClassifyOne(extra, raw, cleaned).raw == raw && ClassifyOne(extra, raw, cleaned).leadingVerb == with
  {
  }
}
