/**
  The `prettylabel` filter: field labels rendered by the form library end
  in `:</label>`; the admin theme drops that trailing colon.
 */
module Labels {
  import opened Text

  const LabelClose: string := "</label>"
  const ColonLabelClose: string := ":</label>"

  /** The filter itself: `value.replace(":</label>", "</label>")`. */
  function PrettyLabel(value: string): (r: string)
    ensures |r| <= |value|
  {
    ReplaceAll(value, ColonLabelClose, LabelClose)
  }

  /**
    Reference reading of the filter, one character at a time: a colon is
    dropped exactly when `</label>` follows it, every other character is
    kept.
   */
  function DropColonsBeforeClose(s: string): string
  {
    if |s| == 0 then ""
    else (if s[0] == ':' && OccursAt(s[1..], LabelClose, 0) then "" else [s[0]])
         + DropColonsBeforeClose(s[1..])
  }

  /** A prefix holding no colon passes through the reference unchanged. */
  lemma {:induction false} DropColonsKeepsColonFree(p: string, t: string)
    requires ':' !in p
    ensures DropColonsBeforeClose(p + t) == p + DropColonsBeforeClose(t)
  {
    if |p| == 0 {
      assert p + t == t;
    } else {
      assert (p + t)[0] == p[0];
      assert (p + t)[1..] == p[1..] + t;
      DropColonsKeepsColonFree(p[1..], t);
      assert [p[0]] + (p[1..] + DropColonsBeforeClose(t)) == p + DropColonsBeforeClose(t);
    }
  }

  /** Strings too short to hold `:</label>` are left alone by the reference. */
  lemma {:induction false} DropColonsShort(s: string)
    requires |s| < |ColonLabelClose|
    ensures DropColonsBeforeClose(s) == s
  {
    if |s| > 0 {
      DropColonsShort(s[1..]);
      assert [s[0]] + s[1..] == s;
    }
  }

  /**
    `prettylabel` removes exactly the colons that immediately precede a
    `</label>`, and changes nothing else.
   */
  lemma {:induction false} PrettyLabelDropsColonsBeforeClose(value: string)
    ensures PrettyLabel(value) == DropColonsBeforeClose(value)
    decreases |value|
  {
    var s := value;
    if |s| < |ColonLabelClose| {
      DropColonsShort(s);
    } else if s[..|ColonLabelClose|] == ColonLabelClose {
      assert s[1..] == LabelClose + s[|ColonLabelClose|..] by {
        assert s[1..|ColonLabelClose|] == LabelClose;
      }
      assert OccursAt(s[1..], LabelClose, 0) by {
        assert s[1..][0..|LabelClose|] == LabelClose;
      }
      PrettyLabelDropsColonsBeforeClose(s[|ColonLabelClose|..]);
      DropColonsKeepsColonFree(LabelClose, s[|ColonLabelClose|..]);
    } else {
      ColonThenClose(s);
      PrettyLabelDropsColonsBeforeClose(s[1..]);
    }
  }

  /** A colon followed by `</label>` is an occurrence of `:</label>`. */
  lemma ColonThenClose(s: string)
    requires |s| >= |ColonLabelClose|
    ensures s[0] == ':' && OccursAt(s[1..], LabelClose, 0) ==> s[..|ColonLabelClose|] == ColonLabelClose
  {
    if s[0] == ':' && OccursAt(s[1..], LabelClose, 0) {
      forall m | 0 <= m < |ColonLabelClose|
        ensures s[m] == ColonLabelClose[m]
      {
        if m > 0 {
          assert s[1..][0..|LabelClose|][m - 1] == LabelClose[m - 1];
        }
      }
    }
  }

  /** A label without `:</label>` is returned unchanged. */
  lemma PrettyLabelWithoutColonClose(value: string)
    requires !Contains(value, ColonLabelClose)
    ensures PrettyLabel(value) == value
  {
    ReplaceAllAbsent(value, ColonLabelClose, LabelClose);
  }
}
