/**
 Redaction of inline secrets in log text (`novena_gateway/gateway/redaction.py`,
 `redact_text`).  For each sensitive key and each of "=" and ":" the text is searched,
 without regard to case, for the marker; what follows the marker up to a delimiter is
 replaced by a token.  Lower-casing is that of ASCII text, which keeps every position.
 */
module Redaction {
  import opened Common

  const TOKEN := "[REDACTED]"

  const KEYS: seq<string> := [
    "password", "token", "claim_code", "claimcode", "secret",
    "privatekey", "private_key", "authorization", "bearer", "keyfile"]

  const SEPARATORS := "=:"

  function LowerChar(c: char): char {
    if 'A' <= c <= 'Z' then (c as int + 32) as char else c
  }

  predicate IsDelimiter(c: char) { c in " ,;}]" }

  /** The marker occurs at `i`, in any case. */
  predicate OccursAt(text: string, marker: string, i: int) {
    0 <= i && i + |marker| <= |text| &&
    forall k :: 0 <= k < |marker| ==> LowerChar(text[i + k]) == marker[k]
  }

  /** `lower.find(marker, from)` */
  function Find(text: string, marker: string, from: nat): (at: Option<nat>)
    ensures at.Some? ==> at.value >= from && OccursAt(text, marker, at.value)
    ensures at.Some? ==> forall i :: from <= i < at.value ==> !OccursAt(text, marker, i)
    ensures at.None? ==> forall i :: from <= i ==> !OccursAt(text, marker, i)
    decreases |text| - from
  {
    if from + |marker| > |text| then None
    else if OccursAt(text, marker, from) then Some(from)
    else if from >= |text| then None
    else Find(text, marker, from + 1)
  }

  /** Where the secret that begins at `start` ends. */
  function ScanEnd(text: string, start: nat): (end: nat)
    requires start <= |text|
    ensures start <= end <= |text|
    ensures end == |text| || IsDelimiter(text[end])
    decreases |text| - start
  {
    if start == |text| || IsDelimiter(text[start]) then start else ScanEnd(text, start + 1)
  }

  function Replace(text: string, start: nat): string
    requires start <= |text|
  {
    text[..start] + TOKEN + text[ScanEnd(text, start)..]
  }

  /** One pass for one marker, from position `from` on. */
  function Pass(text: string, marker: string, from: nat): string
    requires marker != [] && from <= |text|
    decreases |text| - from
  {
    var at := Find(text, marker, from);
    if at.None? then text
    else
      var start := at.value + |marker|;
      Pass(Replace(text, start), marker, start + |TOKEN|)
  }

  function AllPasses(text: string, markers: seq<string>): string
    requires forall i :: 0 <= i < |markers| ==> markers[i] != []
    decreases |markers|
  {
    if markers == [] then text else AllPasses(Pass(text, markers[0], 0), markers[1..])
  }

  function Markers(keys: seq<string>): (markers: seq<string>)
    ensures forall i :: 0 <= i < |markers| ==> markers[i] != []
  {
    if keys == [] then [] else [keys[0] + "=", keys[0] + ":"] + Markers(keys[1..])
  }

  function Redacted(text: string): string { AllPasses(text, Markers(KEYS)) }

  // ---------------------------------------------------------------- as the gateway runs it

  method EndOfSecret(text: string, start: nat) returns (end: nat)
    requires start <= |text|
    ensures end == ScanEnd(text, start)
  {
    end := start;
    while end < |text| && text[end] !in " ,;}]"
      invariant start <= end <= |text|
      invariant ScanEnd(text, start) == ScanEnd(text, end)
    {
      end := end + 1;
    }
  }

  method RedactMarker(text: string, marker: string) returns (redacted: string)
    requires marker != []
    ensures redacted == Pass(text, marker, 0)
  {
    redacted := text;
    var from := 0;
    var at := Find(redacted, marker, 0);
    while at.Some?
      invariant 0 <= from <= |redacted| && at == Find(redacted, marker, from)
      invariant Pass(redacted, marker, from) == Pass(text, marker, 0)
      decreases |redacted| - from
    {
      hide ScanEnd, Find;
      var start := at.value + |marker|;
      var end := EndOfSecret(redacted, start);
      redacted := redacted[..start] + TOKEN + redacted[end..];
      from := start + |TOKEN|;
      at := Find(redacted, marker, from);
    }
  }

  /** Terminates on every text. */
  method RedactText(text: string) returns (redacted: string)
    ensures redacted == Redacted(text)
  {
    redacted := text;
    for k := 0 to |KEYS|
      invariant AllPasses(redacted, Markers(KEYS[k..])) == Redacted(text)
    {
      var key := KEYS[k];
      assert KEYS[k..][0] == key && KEYS[k..][1..] == KEYS[k + 1..];
      TwoPasses(redacted, key, KEYS[k + 1..]);
      redacted := RedactMarker(redacted, key + "=");
      redacted := RedactMarker(redacted, key + ":");
    }
  }

  lemma TwoPasses(text: string, key: string, rest: seq<string>)
    ensures AllPasses(text, [key + "=", key + ":"] + Markers(rest))
         == AllPasses(Pass(Pass(text, key + "=", 0), key + ":", 0), Markers(rest))
  {
    var markers := [key + "=", key + ":"] + Markers(rest);
    assert markers[1..] == [key + ":"] + Markers(rest) && markers[1..][1..] == Markers(rest);
  }

  // ---------------------------------------------------------------- what is left

  /** The token stands at `p`, and the secret behind it is gone up to a delimiter or the end. */
  predicate Closed(text: string, p: int) {
    && 0 <= p && p + |TOKEN| <= |text| && text[p..p + |TOKEN|] == TOKEN
    && (p + |TOKEN| == |text| || IsDelimiter(text[p + |TOKEN|]))
  }

  /** Every occurrence of the marker that begins before `limit` is closed. */
  ghost predicate SafeBelow(text: string, marker: string, limit: int) {
    forall i :: 0 <= i < limit && OccursAt(text, marker, i) ==> Closed(text, i + |marker|)
  }

  ghost predicate Safe(text: string, marker: string) { SafeBelow(text, marker, |text| + 1) }

  predicate WordChar(c: char) { 'a' <= c <= 'z' || c == '_' }

  /** Word characters followed by a separator: it cannot overlap a token. */
  predicate Proper(marker: string) {
    && |marker| >= 2
    && (forall k :: 0 <= k < |marker| - 1 ==> WordChar(marker[k]))
    && marker[|marker| - 1] in SEPARATORS
  }

  /** An occurrence of a proper marker has no bracket in it. */
  lemma NoBracketInside(text: string, marker: string, i: int, p: int)
    requires Proper(marker) && OccursAt(text, marker, i) && i <= p < i + |marker|
    ensures text[p] != '[' && text[p] != ']'
    ensures p == i + |marker| - 1 ==> text[p] in SEPARATORS
    ensures p < i + |marker| - 1 ==> text[p] !in SEPARATORS
  {
    assert LowerChar(text[i + (p - i)]) == marker[p - i];
  }

  /** An occurrence and a token do not overlap. */
  lemma OccurrenceAvoidsToken(text: string, marker: string, i: int, p: int)
    requires Proper(marker) && OccursAt(text, marker, i)
    requires 0 <= p && p + |TOKEN| <= |text| && text[p..p + |TOKEN|] == TOKEN
    ensures i + |marker| <= p || p + |TOKEN| <= i
  {
    assert forall q :: p <= q < p + |TOKEN| ==> text[q] == text[p..p + |TOKEN|][q - p] == TOKEN[q - p];
    assert forall k :: 0 <= k < |TOKEN| ==> TOKEN[k] !in SEPARATORS;
    if i <= p < i + |marker| {
      NoBracketInside(text, marker, i, p);
      assert false;
    } else if i <= p + 9 < i + |marker| {
      NoBracketInside(text, marker, i, p + 9);
      assert false;
    } else if p < i < p + |TOKEN| {
      NoBracketInside(text, marker, i, i + |marker| - 1);
      assert false;
    }
  }

  /** An occurrence in the text after a replacement is outside the token, and was there before. */
  lemma OccurrenceWasThere(text: string, start: nat, marker: string, i: int)
    requires start <= |text| && Proper(marker) && OccursAt(Replace(text, start), marker, i)
    ensures var end := ScanEnd(text, start);
            || (i + |marker| <= start && OccursAt(text, marker, i))
            || (i >= start + |TOKEN| && OccursAt(text, marker, i - (start + |TOKEN|) + end))
  {
    var after := Replace(text, start);
    var end := ScanEnd(text, start);
    assert after[start..start + |TOKEN|] == TOKEN;
    OccurrenceAvoidsToken(after, marker, i, start);
    if i + |marker| <= start {
      forall k | 0 <= k < |marker| ensures LowerChar(text[i + k]) == marker[k] {
        assert after[i + k] == text[i + k];
      }
    } else {
      var j := i - (start + |TOKEN|) + end;
      forall k | 0 <= k < |marker| ensures LowerChar(text[j + k]) == marker[k] {
        assert after[i + k] == text[j + k];
      }
    }
  }

  /** A token in front of the found marker survives the replacement, with what closes it. */
  lemma ClosedBefore(text: string, found: string, at: int, p: int)
    requires Proper(found) && OccursAt(text, found, at) && Closed(text, p) && p < at + |found|
    ensures Closed(Replace(text, at + |found|), p)
  {
    var start := at + |found|;
    var after := Replace(text, start);
    OccurrenceAvoidsToken(text, found, at, p);
    assert p + |TOKEN| <= at;
    assert after[p..p + |TOKEN|] == text[p..p + |TOKEN|];
    assert after[p + |TOKEN|] == text[p + |TOKEN|];
  }

  /** A token behind the replaced secret only moves. */
  lemma ClosedBehind(text: string, start: nat, p: int)
    requires start <= |text| && Closed(text, p) && p >= ScanEnd(text, start)
    ensures Closed(Replace(text, start), p - ScanEnd(text, start) + start + |TOKEN|)
  {
    var end := ScanEnd(text, start);
    var after := Replace(text, start);
    var q := p - end + start + |TOKEN|;
    assert after[q..q + |TOKEN|] == text[p..p + |TOKEN|];
    if p + |TOKEN| < |text| {
      assert after[q + |TOKEN|] == text[p + |TOKEN|];
    }
  }

  /** The marker just handled is closed. */
  lemma ClosedHere(text: string, start: nat)
    requires start <= |text|
    ensures Closed(Replace(text, start), start)
  {
    var after := Replace(text, start);
    var end := ScanEnd(text, start);
    assert after[start..start + |TOKEN|] == TOKEN;
    if end < |text| {
      assert after[start + |TOKEN|] == text[end];
    }
  }

  lemma SafeAt(text: string, marker: string, i: int)
    requires Safe(text, marker) && OccursAt(text, marker, i)
    ensures 0 <= i && Closed(text, i + |marker|)
  {
  }

  lemma ReplaceKeepsOne(text: string, found: string, at: int, other: string, i: int)
    requires Proper(found) && Proper(other) && OccursAt(text, found, at) && Safe(text, other)
    requires OccursAt(Replace(text, at + |found|), other, i)
    ensures Closed(Replace(text, at + |found|), i + |other|)
  {
    hide *;
    Fits(text, found, at);
    var start := at + |found|;
    OccurrenceWasThere(text, start, other, i);
    if i + |other| == start {
      ClosedHere(text, start);
    } else if i + |other| < start {
      SafeAt(text, other, i);
      ClosedBefore(text, found, at, i + |other|);
    } else {
      var j := i - (start + |TOKEN|) + ScanEnd(text, start);
      SafeAt(text, other, j);
      ClosedBehind(text, start, j + |other|);
    }
  }

  /** A replacement for one marker does not undo the work done for another. */
  lemma ReplaceKeepsSafe(text: string, found: string, at: int, other: string)
    requires Proper(found) && Proper(other) && OccursAt(text, found, at) && Safe(text, other)
    ensures Safe(Replace(text, at + |found|), other)
  {
    var after := Replace(text, at + |found|);
    forall i | 0 <= i < |after| + 1 && OccursAt(after, other, i) ensures Closed(after, i + |other|) {
      ReplaceKeepsOne(text, found, at, other, i);
    }
  }

  /** A replacement extends the closed part of its own marker past the new token. */
  lemma ReplaceAdvances(text: string, marker: string, from: nat, at: nat)
    requires Proper(marker) && SafeBelow(text, marker, from) && from <= at && OccursAt(text, marker, at)
    requires forall i :: from <= i < at ==> !OccursAt(text, marker, i)
    ensures SafeBelow(Replace(text, at + |marker|), marker, at + |marker| + |TOKEN|)
  {
    hide Proper, OccursAt, ScanEnd, Closed;
    Fits(text, marker, at);
    var start := at + |marker|;
    var after := Replace(text, start);
    forall i | 0 <= i < start + |TOKEN| && OccursAt(after, marker, i) ensures Closed(after, i + |marker|) {
      OccurrenceWasThere(text, start, marker, i);
      if i == at {
        ClosedHere(text, start);
      } else {
        ClosedBefore(text, marker, at, i + |marker|);
      }
    }
  }

  /** Nothing occurs behind the safe part, so all of the text is safe. */
  lemma SafeThroughout(text: string, marker: string, from: nat)
    requires SafeBelow(text, marker, from) && forall i :: from <= i ==> !OccursAt(text, marker, i)
    ensures Safe(text, marker)
  {
    hide OccursAt, Closed;
  }

  /** Behind the token there is no more text than there was behind the marker. */
  lemma LessIsLeft(text: string, start: nat)
    requires start <= |text|
    ensures start + |TOKEN| <= |Replace(text, start)| <= |text| + |TOKEN|
  {
  }

  /** A pass makes the text safe for its marker and keeps it safe for every other. */
  lemma {:induction false} PassIsSafe(text: string, marker: string, from: nat, others: seq<string>)
    requires Proper(marker) && from <= |text| && SafeBelow(text, marker, from)
    requires forall n :: 0 <= n < |others| ==> Proper(others[n]) && Safe(text, others[n])
    ensures Safe(Pass(text, marker, from), marker)
    ensures forall n :: 0 <= n < |others| ==> Safe(Pass(text, marker, from), others[n])
    decreases |text| - from
  {
    hide Proper, OccursAt, ScanEnd, Safe, SafeBelow, Replace;
    var at := Find(text, marker, from);
    if at.None? {
      SafeThroughout(text, marker, from);
    } else {
      var start := at.value + |marker|;
      Fits(text, marker, at.value);
      ReplaceAdvances(text, marker, from, at.value);
      forall n | 0 <= n < |others| ensures Safe(Replace(text, start), others[n]) {
        ReplaceKeepsSafe(text, marker, at.value, others[n]);
      }
      LessIsLeft(text, start);
      PassIsSafe(Replace(text, start), marker, start + |TOKEN|, others);
    }
  }

  lemma Fits(text: string, marker: string, i: int)
    requires Proper(marker) && OccursAt(text, marker, i)
    ensures marker != [] && 0 <= i && i + |marker| <= |text|
  {
  }

  lemma StartsUnsafe(text: string, marker: string)
    ensures SafeBelow(text, marker, 0)
  {
  }

  lemma {:induction false} PassesAreSafe(text: string, markers: seq<string>, done: seq<string>)
    requires forall n :: 0 <= n < |markers| ==> markers[n] != [] && Proper(markers[n])
    requires forall n :: 0 <= n < |done| ==> Proper(done[n]) && Safe(text, done[n])
    ensures forall n :: 0 <= n < |markers| ==> Safe(AllPasses(text, markers), markers[n])
    ensures forall n :: 0 <= n < |done| ==> Safe(AllPasses(text, markers), done[n])
    decreases |markers|
  {
    hide Pass, Safe, Proper;
    if markers != [] {
      var m := markers[0];
      StartsUnsafe(text, m);
      var next := Pass(text, m, 0);
      PassIsSafe(text, m, 0, done);
      var more := done + [m];
      PassesAreSafe(next, markers[1..], more);
      var out := AllPasses(next, markers[1..]);
      forall n | 0 <= n < |done| ensures Safe(out, done[n]) { assert more[n] == done[n]; }
      forall n | 0 <= n < |markers| ensures Safe(out, markers[n]) {
        if n == 0 { assert more[|done|] == m; } else { assert markers[1..][n - 1] == markers[n]; }
      }
    }
  }

  predicate ProperKey(key: string) { key != [] && forall k :: 0 <= k < |key| ==> WordChar(key[k]) }

  lemma {:induction false} MarkersAreProper(keys: seq<string>)
    requires forall k :: 0 <= k < |keys| ==> ProperKey(keys[k])
    ensures forall n :: 0 <= n < |Markers(keys)| ==> Proper(Markers(keys)[n])
    ensures forall k :: 0 <= k < |keys| ==> keys[k] + "=" in Markers(keys) && keys[k] + ":" in Markers(keys)
  {
    if keys != [] {
      MarkersAreProper(keys[1..]);
      var all := Markers(keys);
      assert all[0] == keys[0] + "=" && all[1] == keys[0] + ":";
      assert forall n :: 2 <= n < |all| ==> all[n] == Markers(keys[1..])[n - 2];
      forall k | 0 <= k < |keys| ensures keys[k] + "=" in all && keys[k] + ":" in all {
        if k > 0 {
          assert keys[1..][k - 1] == keys[k];
          assert keys[k] + "=" in Markers(keys[1..]) && keys[k] + ":" in Markers(keys[1..]);
        }
      }
    }
  }

  lemma KeysAreProper()
    ensures forall k :: 0 <= k < |KEYS| ==> ProperKey(KEYS[k])
  {
    assert ProperKey("password") && ProperKey("token") && ProperKey("claim_code") && ProperKey("claimcode");
    assert ProperKey("secret") && ProperKey("privatekey") && ProperKey("private_key");
    assert ProperKey("authorization") && ProperKey("bearer") && ProperKey("keyfile");
  }

  lemma KeyIsSafe(text: string, keys: seq<string>, k: nat, separator: char)
    requires (forall n :: 0 <= n < |keys| ==> ProperKey(keys[n])) && k < |keys| && separator in SEPARATORS
    ensures Safe(AllPasses(text, Markers(keys)), keys[k] + [separator])
  {
    MarkersAreProper(keys);
    hide Markers, AllPasses, Safe, Proper, ProperKey;
    PassesAreSafe(text, Markers(keys), []);
    assert keys[k] + [separator] == if separator == '=' then keys[k] + "=" else keys[k] + ":";
  }

  lemma InsideText(text: string, marker: string, i: int)
    requires OccursAt(text, marker, i)
    ensures 0 <= i <= |text|
  {
  }

  /**
   In the output for any text, every occurrence of every sensitive marker, in any case, is
   directly followed by the token, and the token by a delimiter or the end of the text.
   */
  lemma EveryMarkerIsClosed(text: string, k: nat, separator: char, i: int)
    requires k < |KEYS| && separator in SEPARATORS
    requires OccursAt(Redacted(text), KEYS[k] + [separator], i)
    ensures Closed(Redacted(text), i + |KEYS[k]| + 1)
  {
    hide Markers, AllPasses, OccursAt, Closed;
    KeysAreProper();
    KeyIsSafe(text, KEYS, k, separator);
    InsideText(Redacted(text), KEYS[k] + [separator], i);
  }

  // ---------------------------------------------------------------- what is not redacted

  /** Delimiters that the token itself does not contain. */
  predicate IsOuter(c: char) { c in " ,;}" }

  /** The delimiters of a text, in order. */
  function Outline(text: string): string {
    if text == "" then ""
    else (if IsOuter(text[0]) then [text[0]] else "") + Outline(text[1..])
  }

  lemma {:induction false} OutlineJoins(a: string, b: string)
    ensures Outline(a + b) == Outline(a) + Outline(b)
  {
    if a == "" {
      assert a + b == b;
    } else {
      hide IsOuter;
      assert (a + b)[0] == a[0] && (a + b)[1..] == a[1..] + b;
      OutlineJoins(a[1..], b);
      var head, x, y := if IsOuter(a[0]) then [a[0]] else "", Outline(a[1..]), Outline(b);
      assert head + (x + y) == (head + x) + y;
    }
  }

  lemma {:induction false} NoOutline(text: string)
    requires forall i :: 0 <= i < |text| ==> !IsOuter(text[i])
    ensures Outline(text) == ""
  {
    if text != "" { NoOutline(text[1..]); }
  }

  lemma {:induction false} SecretHasNoDelimiter(text: string, start: nat, i: nat)
    requires start <= |text| && start <= i < ScanEnd(text, start)
    ensures !IsDelimiter(text[i])
    decreases |text| - start
  {
    if start < i { SecretHasNoDelimiter(text, start + 1, i); }
  }

  lemma TokenHasNoOutline()
    ensures Outline(TOKEN) == ""
  {
    hide Outline;
    NoOutline(TOKEN);
  }

  lemma SecretHasNoOutline(text: string, start: nat)
    requires start <= |text|
    ensures Outline(text[start..ScanEnd(text, start)]) == ""
  {
    hide Outline, ScanEnd;
    var secret := text[start..ScanEnd(text, start)];
    forall i | 0 <= i < |secret| ensures !IsOuter(secret[i]) { SecretHasNoDelimiter(text, start, start + i); }
    NoOutline(secret);
  }

  lemma OutlineSkips(before: string, middle: string, after: string)
    requires Outline(middle) == ""
    ensures Outline(before + middle + after) == Outline(before) + Outline(after)
  {
    hide Outline;
    OutlineJoins(before + middle, after);
    OutlineJoins(before, middle);
  }

  lemma ReplaceKeepsOutline(text: string, start: nat)
    requires start <= |text|
    ensures Outline(Replace(text, start)) == Outline(text)
  {
    hide Outline, ScanEnd;
    var end := ScanEnd(text, start);
    var before, secret, after := text[..start], text[start..end], text[end..];
    TokenHasNoOutline();
    SecretHasNoOutline(text, start);
    OutlineSkips(before, TOKEN, after);
    OutlineSkips(before, secret, after);
    assert text == before + secret + after;
  }

  lemma {:induction false} PassKeepsOutline(text: string, marker: string, from: nat)
    requires marker != [] && from <= |text|
    ensures Outline(Pass(text, marker, from)) == Outline(text)
    decreases |text| - from
  {
    hide Outline, ScanEnd;
    var at := Find(text, marker, from);
    if at.Some? {
      var start := at.value + |marker|;
      ReplaceKeepsOutline(text, start);
      PassKeepsOutline(Replace(text, start), marker, start + |TOKEN|);
    }
  }

  /** No pass removes, adds or reorders a blank, comma, semicolon or closing brace. */
  lemma {:induction false} OutlineIsKept(text: string, markers: seq<string>)
    requires forall n :: 0 <= n < |markers| ==> markers[n] != []
    ensures Outline(AllPasses(text, markers)) == Outline(text)
    decreases |markers|
  {
    hide Outline, Pass;
    if markers != [] {
      PassKeepsOutline(text, markers[0], 0);
      OutlineIsKept(Pass(text, markers[0], 0), markers[1..]);
    }
  }

  /** A text without any marker comes back unchanged. */
  lemma {:induction false} CleanTextIsUnchanged(text: string, markers: seq<string>)
    requires forall n :: 0 <= n < |markers| ==> markers[n] != []
    requires forall n, i :: 0 <= n < |markers| ==> !OccursAt(text, markers[n], i)
    ensures AllPasses(text, markers) == text
    decreases |markers|
  {
    if markers != [] {
      assert Pass(text, markers[0], 0) == text;
      forall n, i | 0 <= n < |markers[1..]| ensures !OccursAt(text, markers[1..][n], i) {
        assert markers[1..][n] == markers[n + 1];
      }
      CleanTextIsUnchanged(text, markers[1..]);
    }
  }

  // ---------------------------------------------------------------- when nothing changes

  /** The closing brackets of a text. */
  function Brackets(text: string): nat {
    if text == "" then 0 else (if text[0] == ']' then 1 else 0) + Brackets(text[1..])
  }

  lemma {:induction false} BracketsJoin(a: string, b: string)
    ensures Brackets(a + b) == Brackets(a) + Brackets(b)
  {
    if a == "" {
      assert a + b == b;
    } else {
      assert (a + b)[1..] == a[1..] + b;
      BracketsJoin(a[1..], b);
    }
  }

  lemma {:induction false} NoBrackets(text: string)
    requires forall i :: 0 <= i < |text| ==> text[i] != ']'
    ensures Brackets(text) == 0
  {
    if text != "" { NoBrackets(text[1..]); }
  }

  lemma TokenHasABracket()
    ensures Brackets(TOKEN) == 1
  {
    hide Brackets;
    assert TOKEN == "[REDACTED" + "]";
    BracketsJoin("[REDACTED", "]");
    NoBrackets("[REDACTED");
    OneBracket();
  }

  lemma OneBracket()
    ensures Brackets("]") == 1
  {
    assert "]"[1..] == "";
  }

  lemma SecretHasNoBracket(text: string, start: nat)
    requires start <= |text|
    ensures Brackets(text[start..ScanEnd(text, start)]) == 0
  {
    hide Brackets, ScanEnd;
    var secret := text[start..ScanEnd(text, start)];
    forall i | 0 <= i < |secret| ensures secret[i] != ']' { SecretHasNoDelimiter(text, start, start + i); }
    NoBrackets(secret);
  }

  lemma BracketsOfThree(before: string, middle: string, after: string)
    ensures Brackets(before + middle + after) == Brackets(before) + Brackets(middle) + Brackets(after)
  {
    hide Brackets;
    BracketsJoin(before + middle, after);
    BracketsJoin(before, middle);
  }

  /** Every replacement adds one bracket: a secret has none, the token has one. */
  lemma ReplaceAddsABracket(text: string, start: nat)
    requires start <= |text|
    ensures Brackets(Replace(text, start)) == Brackets(text) + 1
  {
    hide Brackets, ScanEnd;
    var end := ScanEnd(text, start);
    var before, secret, after := text[..start], text[start..end], text[end..];
    SecretHasNoBracket(text, start);
    TokenHasABracket();
    BracketsOfThree(before, TOKEN, after);
    BracketsOfThree(before, secret, after);
    assert text == before + secret + after;
  }

  lemma {:induction false} PassAddsBrackets(text: string, marker: string, from: nat)
    requires marker != [] && from <= |text|
    ensures Brackets(Pass(text, marker, from)) >= Brackets(text)
    ensures Find(text, marker, from).Some? ==> Brackets(Pass(text, marker, from)) > Brackets(text)
    ensures Find(text, marker, from).None? ==> Pass(text, marker, from) == text
    decreases |text| - from
  {
    hide Brackets, ScanEnd;
    var at := Find(text, marker, from);
    if at.Some? {
      var start := at.value + |marker|;
      ReplaceAddsABracket(text, start);
      PassAddsBrackets(Replace(text, start), marker, start + |TOKEN|);
    }
  }

  ghost predicate Occurs(text: string, marker: string) { exists i :: OccursAt(text, marker, i) }

  lemma {:induction false} UnchangedMeansClean(text: string, markers: seq<string>)
    requires forall n :: 0 <= n < |markers| ==> markers[n] != []
    ensures Brackets(AllPasses(text, markers)) >= Brackets(text)
    ensures Brackets(AllPasses(text, markers)) == Brackets(text) ==> forall n :: 0 <= n < |markers| ==> !Occurs(text, markers[n])
    decreases |markers|
  {
    hide Brackets, Pass, OccursAt;
    if markers != [] {
      PassAddsBrackets(text, markers[0], 0);
      UnchangedMeansClean(Pass(text, markers[0], 0), markers[1..]);
      if Brackets(AllPasses(text, markers)) == Brackets(text) {
        forall n | 0 <= n < |markers| ensures !Occurs(text, markers[n]) {
          if n > 0 { assert markers[1..][n - 1] == markers[n]; } else { NotFound(text, markers[0]); }
        }
      }
    }
  }

  lemma NotFound(text: string, marker: string)
    requires Find(text, marker, 0).None?
    ensures !Occurs(text, marker)
  {
    forall i ensures !OccursAt(text, marker, i) { if i < 0 { assert !OccursAt(text, marker, i); } }
  }

  lemma UnchangedBy(text: string, markers: seq<string>)
    requires forall n :: 0 <= n < |markers| ==> markers[n] != []
    ensures AllPasses(text, markers) == text <==> forall n :: 0 <= n < |markers| ==> !Occurs(text, markers[n])
  {
    hide Brackets, AllPasses, OccursAt;
    UnchangedMeansClean(text, markers);
    if forall n :: 0 <= n < |markers| ==> !Occurs(text, markers[n]) {
      forall n, i | 0 <= n < |markers| ensures !OccursAt(text, markers[n], i) { assert !Occurs(text, markers[n]); }
      CleanTextIsUnchanged(text, markers);
    }
  }

  /** No marker occurs in the text. */
  ghost predicate Plain(s: string) { forall n :: 0 <= n < |Markers(KEYS)| ==> !Occurs(s, Markers(KEYS)[n]) }

  /** A text comes back unchanged if and only if no marker occurs in it. */
  lemma UnchangedExactly(text: string)
    ensures Redacted(text) == text <==> Plain(text)
  {
    hide AllPasses, Markers, Occurs;
    UnchangedBy(text, Markers(KEYS));
  }

  /** A pass leaves everything in front of its search position alone. */
  lemma {:induction false} PassKeepsFront(text: string, marker: string, from: nat)
    requires marker != [] && from <= |text|
    ensures |Pass(text, marker, from)| >= from && Pass(text, marker, from)[..from] == text[..from]
    decreases |text| - from
  {
    hide ScanEnd, OccursAt, Find, Replace;
    var at := Find(text, marker, from);
    if at.Some? {
      var start := at.value + |marker|;
      Reaches(text, marker, at.value);
      var next := Replace(text, start);
      LessIsLeft(text, start);
      FrontOfReplace(text, start, from);
      PassKeepsFront(next, marker, start + |TOKEN|);
      FrontOfFront(Pass(next, marker, start + |TOKEN|), next, start + |TOKEN|, from);
    }
  }

  lemma FrontOfReplace(text: string, start: nat, from: nat)
    requires from <= start <= |text|
    ensures from <= |Replace(text, start)| && Replace(text, start)[..from] == text[..from]
  {
    hide ScanEnd;
    var middle := TOKEN;
    FrontOfJoin(text[..start], middle + text[ScanEnd(text, start)..], from);
    assert Replace(text, start) == text[..start] + (middle + text[ScanEnd(text, start)..]);
    assert text[..start][..from] == text[..from];
  }

  lemma FrontOfFront(a: string, b: string, n: nat, from: nat)
    requires from <= n <= |a| && n <= |b| && a[..n] == b[..n]
    ensures a[..from] == b[..from]
  {
    assert a[..from] == a[..n][..from] && b[..from] == b[..n][..from];
  }

  lemma FrontOfJoin(a: string, b: string, from: nat)
    requires from <= |a|
    ensures (a + b)[..from] == a[..from]
  {
  }

  /** An occurrence in a kept front stays. */
  lemma OccursInKeptFront(text: string, other: string, marker: string, i: int, from: nat)
    requires OccursAt(text, marker, i) && i + |marker| <= from <= |text| && from <= |other| && other[..from] == text[..from]
    ensures OccursAt(other, marker, i)
  {
    forall k | 0 <= k < |marker| ensures LowerChar(other[i + k]) == marker[k] {
      assert other[..from][i + k] == text[..from][i + k];
    }
  }

  /** A marker that occurs still occurs after its own pass. */
  lemma OwnPassKeepsMarker(text: string, marker: string)
    requires marker != [] && Occurs(text, marker)
    ensures Occurs(Pass(text, marker, 0), marker)
  {
    hide OccursAt, ScanEnd, Find, Replace;
    var at := Find(text, marker, 0);
    var i :| OccursAt(text, marker, i);
    InsideText(text, marker, i);
    var start := at.value + |marker|;
    Reaches(text, marker, at.value);
    var next := Replace(text, start);
    FrontOfReplace(text, start, start);
    LessIsLeft(text, start);
    OccursInKeptFront(text, next, marker, at.value, start);
    PassKeepsFront(next, marker, start + |TOKEN|);
    OccursInKeptFront(next, Pass(next, marker, start + |TOKEN|), marker, at.value, start + |TOKEN|);
  }

  ghost predicate SomeOccurs(text: string, markers: seq<string>) {
    exists n :: 0 <= n < |markers| && Occurs(text, markers[n])
  }

  /** If some of the markers occurs, some of them still does after all passes for a part of them. */
  lemma {:induction false} SomeMarkerStays(text: string, all: seq<string>, k: nat)
    requires k <= |all| && (forall n :: 0 <= n < |all| ==> all[n] != []) && SomeOccurs(text, all)
    ensures SomeOccurs(AllPasses(text, all[k..]), all)
    decreases |all| - k
  {
    hide Occurs, Pass;
    if k < |all| {
      assert all[k..][0] == all[k] && all[k..][1..] == all[k + 1..];
      var next := Pass(text, all[k], 0);
      if Occurs(text, all[k]) {
        OwnPassKeepsMarker(text, all[k]);
      } else {
        AbsentMarkerChangesNothing(text, all[k]);
      }
      SomeMarkerStays(next, all, k + 1);
    }
  }

  lemma AbsentMarkerChangesNothing(text: string, marker: string)
    requires marker != [] && !Occurs(text, marker)
    ensures Pass(text, marker, 0) == text
  {
    hide OccursAt, Find;
  }

  /** Redacting a second time changes the text again, unless no marker occurred in it in the first place. */
  lemma IdempotentExactly(text: string)
    ensures Redacted(Redacted(text)) == Redacted(text) <==> Plain(text)
  {
    hide AllPasses, Occurs, Markers;
    UnchangedExactly(text);
    UnchangedExactly(Redacted(text));
    if !Plain(text) {
      var markers := Markers(KEYS);
      assert SomeOccurs(text, markers);
      SomeMarkerStays(text, markers, 0);
      assert markers[0..] == markers;
      assert SomeOccurs(Redacted(text), markers);
    }
  }

  // ---------------------------------------------------------------- what stays visible

  lemma NoDelimiterInside(text: string, marker: string, i: int, p: int)
    requires Proper(marker) && OccursAt(text, marker, i) && i <= p < i + |marker|
    ensures !IsDelimiter(text[p])
  {
    assert LowerChar(text[i + (p - i)]) == marker[p - i];
  }

  /** A marker lies in front of a delimiter or behind it. */
  lemma NotAcross(text: string, marker: string, i: int, d: int)
    requires Proper(marker) && OccursAt(text, marker, i) && 0 <= d < |text| && IsDelimiter(text[d])
    ensures i + |marker| <= d || d < i
  {
    if i <= d < i + |marker| { NoDelimiterInside(text, marker, i, d); }
  }

  lemma {:induction false} ScanStops(text: string, start: nat, d: nat)
    requires start <= d < |text| && IsDelimiter(text[d])
    ensures ScanEnd(text, start) <= d
    decreases d - start
  {
    if start < d && !IsDelimiter(text[start]) { ScanStops(text, start + 1, d); }
  }

  /** An occurrence behind the front of a text occurs in its back. */
  lemma OccursBehind(a: string, c: string, marker: string, i: int)
    requires OccursAt(a + c, marker, i) && i >= |a|
    ensures OccursAt(c, marker, i - |a|)
  {
    forall k | 0 <= k < |marker| ensures LowerChar(c[i - |a| + k]) == marker[k] {
      assert (a + c)[i + k] == c[i - |a| + k];
    }
  }

  ghost predicate EndsWith(text: string, c: string) { exists a: string :: text == a + c }

  /** Exchanging a part of the front leaves the back alone. */
  lemma ExchangeInFront(a: string, c: string, i: nat, j: nat, middle: string)
    requires i <= |a| && j <= |a|
    ensures (a + c)[..i] + middle + (a + c)[j..] == (a[..i] + middle + a[j..]) + c
  {
    assert (a + c)[..i] == a[..i] && (a + c)[j..] == a[j..] + c;
    var front := a[..i] + middle;
    assert front + (a[j..] + c) == (front + a[j..]) + c;
  }

  /** A replacement that starts in front of a delimiter stays in front of it. */
  lemma ReplaceKeepsTail(a: string, c: string, start: nat)
    requires c != "" && IsDelimiter(c[0]) && start <= |a|
    ensures ScanEnd(a + c, start) <= |a|
    ensures Replace(a + c, start) == (a[..start] + TOKEN + a[ScanEnd(a + c, start)..]) + c
  {
    hide ScanEnd;
    var text := a + c;
    assert text[|a|] == c[0];
    ScanStops(text, start, |a|);
    ExchangeInFront(a, c, start, ScanEnd(text, start), TOKEN);
  }

  /** Occurrences in a text whose back begins with a delimiter and has none lie in its front. */
  lemma OccursInFront(a: string, c: string, marker: string, i: int)
    requires Proper(marker) && c != "" && IsDelimiter(c[0]) && !Occurs(c, marker) && OccursAt(a + c, marker, i)
    ensures i + |marker| <= |a|
  {
    hide Proper, OccursAt;
    assert (a + c)[|a|] == c[0];
    NotAcross(a + c, marker, i, |a|);
    if i > |a| { OccursBehind(a, c, marker, i); }
  }

  lemma {:induction false} TailSurvivesPass(a: string, c: string, marker: string, from: nat)
    requires Proper(marker) && marker != [] && c != "" && IsDelimiter(c[0]) && !Occurs(c, marker) && from <= |a|
    ensures EndsWith(Pass(a + c, marker, from), c)
    decreases |a| - from
  {
    hide Proper, OccursAt, ScanEnd, Occurs, Replace, Find;
    var text := a + c;
    var at := Find(text, marker, from);
    if at.Some? {
      OccursInFront(a, c, marker, at.value);
      var start := at.value + |marker|;
      ReplaceKeepsTail(a, c, start);
      var front := a[..start] + TOKEN + a[ScanEnd(text, start)..];
      TailSurvivesPass(front, c, marker, start + |TOKEN|);
    }
  }

  lemma Nonempty(marker: string)
    requires Proper(marker)
    ensures marker != []
  {
  }

  lemma {:induction false} TailSurvives(a: string, c: string, markers: seq<string>)
    requires c != "" && IsDelimiter(c[0])
    requires forall n :: 0 <= n < |markers| ==> markers[n] != [] && Proper(markers[n]) && !Occurs(c, markers[n])
    ensures EndsWith(AllPasses(a + c, markers), c)
    decreases |markers|
  {
    hide Pass, Proper, Occurs;
    if markers != [] {
      TailSurvivesPass(a, c, markers[0], 0);
      var next := Pass(a + c, markers[0], 0);
      var front: string :| next == front + c;
      TailSurvives(front, c, markers[1..]);
    }
  }

  /**
   Only what touches the marker is hidden: from a delimiter on, text in which no marker
   occurs survives unchanged.  "password: hunter2" keeps its " hunter2".
   */
  lemma TextBehindADelimiterStays(before: string, after: string)
    requires after != "" && IsDelimiter(after[0])
    requires Plain(after)
    ensures EndsWith(Redacted(before + after), after)
  {
    hide Markers, AllPasses, Proper, Occurs, ProperKey;
    KeysAreProper();
    MarkersAreProper(KEYS);
    TailSurvives(before, after, Markers(KEYS));
  }

  // ---------------------------------------------------------------- what is hidden

  /** `s` lies between a marker at the end of `a` and a delimiter, or the end of the text, at `c`. */
  ghost predicate Enclosed(a: string, s: string, c: string, m: string) {
    && Proper(m) && OccursAt(a, m, |a| - |m|)
    && (forall i :: 0 <= i < |s| ==> !IsDelimiter(s[i]))
    && (c == "" || IsDelimiter(c[0]))
  }

  /** An occurrence next to an enclosed secret without markers lies in front of it or behind it. */
  lemma OccursAround(a: string, s: string, c: string, m: string, q: string, i: int)
    requires Enclosed(a, s, c, m) && Proper(q) && !Occurs(s, q) && OccursAt(a + s + c, q, i)
    ensures i + |q| <= |a| || i >= |a| + |s|
    ensures i + |q| <= |a| ==> OccursAt(a, q, i)
    ensures i >= |a| + |s| ==> OccursAt(c, q, i - |a| - |s|)
  {
    var text := a + s + c;
    if i < |a| < i + |q| {
      NoBracketInside(a, m, |a| - |m|, |a| - 1);
      assert text[|a| - 1] == a[|a| - 1];
      NoBracketInside(text, q, i, |a| - 1);
      assert false;
    } else if |a| <= i < |a| + |s| {
      if i + |q| <= |a| + |s| {
        forall k | 0 <= k < |q| ensures LowerChar(s[i - |a| + k]) == q[k] { assert text[i + k] == s[i - |a| + k]; }
        assert OccursAt(s, q, i - |a|);
        assert false;
      } else {
        assert text[|a| + |s|] == c[0];
        NotAcross(text, q, i, |a| + |s|);
        assert false;
      }
    } else if i >= |a| + |s| {
      OccursBehind(a + s, c, q, i);
    } else {
      forall k | 0 <= k < |q| ensures LowerChar(a[i + k]) == q[k] { assert text[i + k] == a[i + k]; }
    }
  }

  /** Conversely, what occurs in front or behind occurs in the whole. */
  lemma OccursInside(a: string, s: string, c: string, q: string, i: int)
    ensures OccursAt(a, q, i) ==> OccursAt(a + s + c, q, i)
    ensures OccursAt(c, q, i) ==> OccursAt(a + s + c, q, i + |a| + |s|)
  {
    var text := a + s + c;
    if OccursAt(a, q, i) {
      forall k | 0 <= k < |q| ensures LowerChar(text[i + k]) == q[k] { assert text[i + k] == a[i + k]; }
    }
    if OccursAt(c, q, i) {
      forall k | 0 <= k < |q| ensures LowerChar(text[i + |a| + |s| + k]) == q[k] { assert text[i + |a| + |s| + k] == c[i + k]; }
    }
  }

  /** The scan runs through an enclosed secret. */
  lemma {:induction false} ScanThrough(text: string, start: nat, end: nat)
    requires start <= end <= |text| && (forall i :: start <= i < end ==> !IsDelimiter(text[i]))
    requires end == |text| || IsDelimiter(text[end])
    ensures ScanEnd(text, start) == end
    decreases end - start
  {
    if start < end { ScanThrough(text, start + 1, end); }
  }

  lemma {:induction false} ScanInFront(a: string, rest: string, start: nat)
    requires start <= |a| && ScanEnd(a, start) < |a|
    ensures ScanEnd(a + rest, start) == ScanEnd(a, start)
    decreases |a| - start
  {
    assert start < |a| ==> (a + rest)[start] == a[start];
    if start < |a| && !IsDelimiter(a[start]) { ScanInFront(a, rest, start + 1); }
  }

  lemma {:induction false} ScanBehind(front: string, c: string, start: nat)
    requires start <= |c|
    ensures ScanEnd(front + c, |front| + start) == |front| + ScanEnd(c, start)
    decreases |c| - start
  {
    if start < |c| {
      assert (front + c)[|front| + start] == c[start];
      if !IsDelimiter(c[start]) { ScanBehind(front, c, start + 1); }
    }
  }

  /** Where position `i` of a text with secret `s` lies in the text with secret `r` instead. */
  function Mirror(a: string, s: string, r: string, i: int): int { if i < |a| then i else i - |s| + |r| }

  ghost predicate Aligned(a: string, s: string, r: string, from: nat, other: nat) {
    (from == other <= |a|) || (from - |s| == other - |r| >= |a|)
  }

  lemma FindMirrored(a: string, s: string, r: string, c: string, m: string, q: string, from: nat, other: nat)
    requires Enclosed(a, s, c, m) && Enclosed(a, r, c, m) && Proper(q) && !Occurs(s, q) && Aligned(a, s, r, from, other)
    ensures var f, g := Find(a + s + c, q, from), Find(a + r + c, q, other);
            f.Some? ==>
              && (f.value + |q| <= |a| || f.value >= |a| + |s|)
              && g.Some? && g.value <= Mirror(a, s, r, f.value)
  {
    hide OccursAt, Enclosed, Find;
    var f := Find(a + s + c, q, from);
    if f.Some? {
      OccursAround(a, s, c, m, q, f.value);
      Nonempty(q);
      if f.value + |q| <= |a| {
        OccursInside(a, r, c, q, f.value);
      } else {
        OccursInside(a, r, c, q, f.value - |a| - |s|);
      }
      assert OccursAt(a + r + c, q, Mirror(a, s, r, f.value));
    }
  }

  /** The next occurrence is the same one in both texts. */
  lemma FindAligned(a: string, s: string, r: string, c: string, m: string, q: string, from: nat, other: nat)
    requires Enclosed(a, s, c, m) && Enclosed(a, r, c, m) && Proper(q) && !Occurs(s, q) && !Occurs(r, q)
    requires Aligned(a, s, r, from, other)
    ensures var f, g := Find(a + s + c, q, from), Find(a + r + c, q, other);
            && (f.Some? <==> g.Some?)
            && (f.Some? ==> (f.value == g.value && f.value + |q| <= |a|) || (f.value - |s| == g.value - |r| >= |a|))
  {
    hide OccursAt, Enclosed, Find, Occurs;
    Nonempty(q);
    FindMirrored(a, s, r, c, m, q, from, other);
    FindMirrored(a, r, s, c, m, q, other, from);
  }

  /** A replacement that stops in front of a marker at the end leaves it there. */
  lemma ReplaceBeforeMarker(a: string, m: string, start: nat)
    requires Proper(m) && OccursAt(a, m, |a| - |m|) && start <= |a| && ScanEnd(a, start) < |a|
    ensures OccursAt(Replace(a, start), m, |Replace(a, start)| - |m|)
    ensures start + |TOKEN| <= |Replace(a, start)| - |m|
  {
    hide ScanEnd, Proper;
    NotAcross(a, m, |a| - |m|, ScanEnd(a, start));
    var front := Replace(a, start);
    forall k | 0 <= k < |m| ensures LowerChar(front[|front| - |m| + k]) == m[k] {
      assert front[|front| - |m| + k] == a[|a| - |m| + k];
      assert LowerChar(a[|a| - |m| + k]) == m[k];
    }
  }

  lemma ReplaceSplits(a: string, rest: string, start: nat)
    requires start <= |a| && ScanEnd(a, start) < |a|
    ensures Replace(a + rest, start) == Replace(a, start) + rest
  {
    hide ScanEnd;
    var end := ScanEnd(a, start);
    ScanInFront(a, rest, start);
    ExchangeInFront(a, rest, start, end, TOKEN);
  }

  /** A replacement in front that stops there leaves marker, secret and rest in place. */
  lemma ReplaceInFront(a: string, s: string, c: string, m: string, start: nat)
    requires Enclosed(a, s, c, m) && start <= |a| && ScanEnd(a, start) < |a|
    ensures Replace(a + s + c, start) == Replace(a, start) + s + c
    ensures Enclosed(Replace(a, start), s, c, m) && start + |TOKEN| <= |Replace(a, start)| - |m|
  {
    hide ScanEnd, Proper, OccursAt, Replace;
    ReplaceBeforeMarker(a, m, start);
    ReplaceSplits(a, s + c, start);
    assert a + s + c == a + (s + c) && Replace(a, start) + (s + c) == Replace(a, start) + s + c;
  }

  /** A replacement in front that reaches the secret removes it. */
  lemma ReplaceThrough(a: string, s: string, c: string, m: string, start: nat)
    requires Enclosed(a, s, c, m) && start <= |a| && ScanEnd(a, start) == |a|
    ensures Replace(a + s + c, start) == a[..start] + TOKEN + c
  {
    hide ScanEnd, Proper, OccursAt;
    var text := a + s + c;
    var end := |a| + |s|;
    forall i | start <= i < end ensures !IsDelimiter(text[i]) {
      if i < |a| { SecretHasNoDelimiter(a, start, i); assert text[i] == a[i]; } else { assert text[i] == s[i - |a|]; }
    }
    ScanThrough(text, start, end);
    assert text[..start] == a[..start] && text[end..] == c;
  }

  /** A replacement behind the secret leaves everything up to it in place. */
  lemma ReplaceBehind(a: string, s: string, c: string, m: string, start: nat)
    requires Enclosed(a, s, c, m) && 1 <= start <= |c|
    ensures Replace(a + s + c, |a| + |s| + start) == a + s + Replace(c, start)
    ensures Enclosed(a, s, Replace(c, start), m)
  {
    hide ScanEnd, Proper, OccursAt;
    ScanBehind(a + s, c, start);
    var end := ScanEnd(c, start);
    assert (a + s + c)[..|a| + |s| + start] == a + s + c[..start];
    assert (a + s + c)[|a| + |s| + end..] == c[end..];
    assert Replace(c, start)[0] == c[0];
  }

  /** Two texts that are equal, or differ only in an enclosed secret. */
  ghost predicate Alike(x: string, y: string, s: string, r: string, m: string) {
    x == y || exists a: string, c: string :: Differ(x, y, s, r, m, a, c)
  }

  ghost predicate Differ(x: string, y: string, s: string, r: string, m: string, a: string, c: string) {
    Enclosed(a, s, c, m) && Enclosed(a, r, c, m) && x == a + s + c && y == a + r + c
  }

  /** One replacement: the texts become equal, or stay alike with the search behind the new token. */
  lemma ReplacementHides(a: string, s: string, r: string, c: string, m: string, q: string, f: nat, g: nat)
    returns (b: string, d: string)
    requires Enclosed(a, s, c, m) && Enclosed(a, r, c, m) && q != []
    requires OccursAt(a + s + c, q, f) && OccursAt(a + r + c, q, g)
    requires (f == g && f + |q| <= |a|) || (f - |s| == g - |r| >= |a|)
    ensures f + |q| <= |a + s + c| && g + |q| <= |a + r + c|
    ensures var x, y := Replace(a + s + c, f + |q|), Replace(a + r + c, g + |q|);
            || (x == y && f == g)
            || (&& Differ(x, y, s, r, m, b, d) && Aligned(b, s, r, f + |q| + |TOKEN|, g + |q| + |TOKEN|)
                && (f == g && f + |q| <= |a| ==> f + |q| + |TOKEN| <= |b| - |m|))
  {
    hide OccursAt, Enclosed, ScanEnd, Replace;
    Reaches(a + s + c, q, f);
    Reaches(a + r + c, q, g);
    var start := f + |q|;
    b, d := a, c;
    if f == g && start <= |a| {
      if ScanEnd(a, start) < |a| {
        ReplaceInFront(a, s, c, m, start);
        ReplaceInFront(a, r, c, m, start);
        b := Replace(a, start);
      } else {
        ReplaceThrough(a, s, c, m, start);
        ReplaceThrough(a, r, c, m, start);
      }
    } else {
      ReplaceBehind(a, s, c, m, start - |a| - |s|);
      ReplaceBehind(a, r, c, m, start - |a| - |s|);
      d := Replace(c, start - |a| - |s|);
    }
  }

  /** A pass keeps the texts alike. */
  lemma {:induction false} PassHides(a: string, s: string, r: string, c: string, m: string, q: string, from: nat, other: nat)
    requires Enclosed(a, s, c, m) && Enclosed(a, r, c, m) && Proper(q) && q != [] && !Occurs(s, q) && !Occurs(r, q)
    requires Aligned(a, s, r, from, other) && from <= |a + s + c| && other <= |a + r + c|
    ensures var x, y := Pass(a + s + c, q, from), Pass(a + r + c, q, other);
            Alike(x, y, s, r, m)
    decreases |a + s + c| - from
  {
    hide OccursAt, Enclosed, Find, Occurs, ScanEnd, Replace, Proper, Aligned;
    var t, u := a + s + c, a + r + c;
    var f, g := Find(t, q, from), Find(u, q, other);
    FindAligned(a, s, r, c, m, q, from, other);
    if f.None? {
      assert Differ(t, u, s, r, m, a, c);
    } else {
      var b, d := ReplacementHides(a, s, r, c, m, q, f.value, g.value);
      var x, y := Replace(t, f.value + |q|), Replace(u, g.value + |q|);
      if x != y || f.value != g.value {
        LessIsLeft(t, f.value + |q|);
        LessIsLeft(u, g.value + |q|);
        PassHides(b, s, r, d, m, q, f.value + |q| + |TOKEN|, g.value + |q| + |TOKEN|);
      }
    }
  }

  lemma Reaches(text: string, q: string, i: int)
    requires OccursAt(text, q, i)
    ensures i + |q| <= |text|
  {
  }

  /** The marker in front of the secret is found. */
  lemma MarkerIsFound(a: string, s: string, c: string, m: string, from: nat)
    requires Enclosed(a, s, c, m)
    ensures from <= |a| - |m| ==> Find(a + s + c, m, from).Some? && Find(a + s + c, m, from).value <= |a| - |m|
  {
    hide Find, Proper;
    OccursInside(a, s, c, m, |a| - |m|);
  }

  lemma OccursFront(a: string, rest: string, q: string, i: int)
    requires i + |q| <= |a|
    ensures OccursAt(a + rest, q, i) <==> OccursAt(a, q, i)
  {
    if 0 <= i {
      forall k | 0 <= k < |q| ensures LowerChar((a + rest)[i + k]) == q[k] <==> LowerChar(a[i + k]) == q[k] {
        assert (a + rest)[i + k] == a[i + k];
      }
    }
  }

  /** The next occurrence of the marker in front of the secret is the same one in both texts. */
  lemma FindInFront(a: string, s: string, r: string, c: string, m: string, from: nat)
    requires Enclosed(a, s, c, m) && Enclosed(a, r, c, m) && from <= |a| - |m|
    ensures var f, g := Find(a + s + c, m, from), Find(a + r + c, m, from);
            f.Some? && g.Some? && f.value == g.value && f.value + |m| <= |a|
  {
    hide Find, OccursAt, Enclosed;
    MarkerIsFound(a, s, c, m, from);
    MarkerIsFound(a, r, c, m, from);
    var f, g := Find(a + s + c, m, from).value, Find(a + r + c, m, from).value;
    assert a + s + c == a + (s + c) && a + r + c == a + (r + c);
    OccursFront(a, s + c, m, f);
    OccursFront(a, r + c, m, f);
    OccursFront(a, s + c, m, g);
    OccursFront(a, r + c, m, g);
  }

  /** The pass for the marker in front of the secret makes the texts equal, whatever the secret contains. */
  lemma {:induction false} OwnPassHides(a: string, s: string, r: string, c: string, m: string, from: nat)
    requires Enclosed(a, s, c, m) && Enclosed(a, r, c, m) && m != [] && from <= |a| - |m|
    ensures Pass(a + s + c, m, from) == Pass(a + r + c, m, from)
    decreases |a + s + c| - from
  {
    hide OccursAt, Enclosed, Find, Replace, Aligned;
    FindInFront(a, s, r, c, m, from);
    var f := Find(a + s + c, m, from).value;
    var b, d := ReplacementHides(a, s, r, c, m, m, f, f);
    if Replace(a + s + c, f + |m|) != Replace(a + r + c, f + |m|) {
      LessIsLeft(a + s + c, f + |m|);
      OwnPassHides(b, s, r, d, m, f + |m| + |TOKEN|);
    }
  }

  lemma {:induction false} PassesHide(a: string, s: string, r: string, c: string, markers: seq<string>, n: nat)
    requires n < |markers| && Enclosed(a, s, c, markers[n]) && Enclosed(a, r, c, markers[n])
    requires forall k :: 0 <= k < |markers| ==> markers[k] != [] && Proper(markers[k])
    requires forall k :: 0 <= k < n ==> !Occurs(s, markers[k]) && !Occurs(r, markers[k])
    ensures AllPasses(a + s + c, markers) == AllPasses(a + r + c, markers)
    decreases n
  {
    hide Pass, Occurs, Enclosed, Proper;
    var m := markers[n];
    EnclosedFits(a, s, c, m);
    if n == 0 {
      OwnPassHides(a, s, r, c, m, 0);
    } else {
      PassHides(a, s, r, c, m, markers[0], 0, 0);
      var x, y := Pass(a + s + c, markers[0], 0), Pass(a + r + c, markers[0], 0);
      if x != y {
        var b, d :| Differ(x, y, s, r, m, b, d);
        assert markers[1..][n - 1] == m;
        PassesHide(b, s, r, d, markers[1..], n - 1);
      }
    }
  }

  lemma EnclosedFits(a: string, s: string, c: string, m: string)
    requires Enclosed(a, s, c, m)
    ensures |m| <= |a|
  {
  }

  /**
   The output does not depend on the secret: two texts that differ only in what stands
   between a marker and the next delimiter, or the end of the text, are redacted to the
   same text, whatever else they contain, as long as no marker that is looked for before
   this one occurs in the secret itself.
   */
  lemma RedactionHidesTheSecret(a: string, s: string, r: string, c: string, n: nat)
    requires n < |Markers(KEYS)| && Enclosed(a, s, c, Markers(KEYS)[n]) && Enclosed(a, r, c, Markers(KEYS)[n])
    requires forall k :: 0 <= k < n ==> !Occurs(s, Markers(KEYS)[k]) && !Occurs(r, Markers(KEYS)[k])
    ensures Redacted(a + s + c) == Redacted(a + r + c)
  {
    hide Markers, AllPasses, Proper, Occurs, ProperKey, Enclosed;
    KeysAreProper();
    MarkersAreProper(KEYS);
    PassesHide(a, s, r, c, Markers(KEYS), n);
  }

  // ---------------------------------------------------------------- what shows through

  /** In the text no marker occurs but the one with number `n`, and that one only at `at`. */
  ghost predicate OnlyMarker(text: string, markers: seq<string>, n: nat, at: int) {
    forall j, i :: 0 <= j < |markers| && OccursAt(text, markers[j], i) ==> j == n && i == at
  }

  lemma {:induction false} PassesSplit(text: string, markers: seq<string>, n: nat)
    requires n <= |markers| && forall k :: 0 <= k < |markers| ==> markers[k] != []
    ensures AllPasses(text, markers) == AllPasses(AllPasses(text, markers[..n]), markers[n..])
    decreases n
  {
    hide Pass;
    if n > 0 {
      assert markers[..n][0] == markers[0] && markers[..n][1..] == markers[1..][..n - 1];
      assert markers[n..] == markers[1..][n - 1..];
      PassesSplit(Pass(text, markers[0], 0), markers[1..], n - 1);
    }
  }

  /** Behind a marker at its end, a front in which `q` does not occur survives the pass for `q`. */
  lemma FrontSurvives(a: string, x: string, m: string, q: string)
    requires Proper(m) && OccursAt(a, m, |a| - |m|) && Proper(q) && q != [] && !Occurs(a, q)
    ensures var out := Pass(a + x, q, 0); |out| >= |a| && out[..|a|] == a
  {
    hide ScanEnd, OccursAt, Find, Replace, Proper;
    var text := a + x;
    var at := Find(text, q, 0);
    assert text[..|a|] == a;
    if at.Some? {
      BehindFront(a, x, m, q, at.value);
      var start := at.value + |q|;
      Reaches(text, q, at.value);
      var next := Replace(text, start);
      FrontOfReplace(text, start, |a|);
      LessIsLeft(text, start);
      PassKeepsFront(next, q, start + |TOKEN|);
      FrontOfFront(Pass(next, q, start + |TOKEN|), next, start + |TOKEN|, |a|);
    }
  }

  lemma BehindFront(a: string, x: string, m: string, q: string, i: int)
    requires Proper(m) && OccursAt(a, m, |a| - |m|) && Proper(q) && !Occurs(a, q) && OccursAt(a + x, q, i)
    ensures i >= |a|
  {
    if i < |a| {
      if i + |q| <= |a| {
        OccursFront(a, x, q, i);
      } else {
        NoBracketInside(a, m, |a| - |m|, |a| - 1);
        assert (a + x)[|a| - 1] == a[|a| - 1];
        NoBracketInside(a + x, q, i, |a| - 1);
      }
    }
  }

  lemma {:induction false} FrontSurvivesAll(a: string, x: string, m: string, markers: seq<string>)
    requires Proper(m) && OccursAt(a, m, |a| - |m|)
    requires forall k :: 0 <= k < |markers| ==> markers[k] != [] && Proper(markers[k]) && !Occurs(a, markers[k])
    ensures var out := AllPasses(a + x, markers); |out| >= |a| && out[..|a|] == a
    decreases |markers|
  {
    hide Pass, Proper, OccursAt, Occurs;
    if markers == [] {
      assert (a + x)[..|a|] == a;
    } else {
      FrontSurvives(a, x, m, markers[0]);
      var next := Pass(a + x, markers[0], 0);
      assert next == a + next[|a|..];
      FrontSurvivesAll(a, next[|a|..], m, markers[1..]);
    }
  }

  /** An earlier marker in the secret costs a second replacement, and leaves a second bracket. */
  lemma EarlierMarkerShows(a: string, s: string, c: string, markers: seq<string>, n: nat, k: nat)
    requires k < n < |markers| && Enclosed(a, s, c, markers[n]) && Occurs(s, markers[k])
    requires forall j :: 0 <= j < |markers| ==> markers[j] != [] && Proper(markers[j])
    requires forall j :: 0 <= j < n ==> !Occurs(a, markers[j])
    ensures Brackets(AllPasses(a + s + c, markers)) >= Brackets(a + s + c) + 2
  {
    hide Pass, Proper, OccursAt, Brackets, AllPasses, Find;
    var text, m := a + s + c, markers[n];
    var before := markers[..n];
    PassesSplit(text, markers, n);
    UnchangedMeansClean(text, before);
    SecretOccurs(a, s, c, markers[k]);
    assert before[k] == markers[k];
    assert text == a + (s + c);
    FrontSurvivesAll(a, s + c, m, before);
    var middle := AllPasses(text, before);
    assert middle == a + middle[|a|..];
    StillFound(a, middle[|a|..], m);
    OneMorePass(middle, markers, n);
    PassAddsBrackets(middle, m, 0);
    UnchangedMeansClean(Pass(middle, m, 0), markers[n + 1..]);
  }

  lemma OneMorePass(text: string, markers: seq<string>, n: nat)
    requires n < |markers| && forall k :: 0 <= k < |markers| ==> markers[k] != []
    ensures AllPasses(text, markers[n..]) == AllPasses(Pass(text, markers[n], 0), markers[n + 1..])
  {
    hide Pass;
    assert markers[n..][0] == markers[n] && markers[n..][1..] == markers[n + 1..];
  }

  lemma StillFound(a: string, x: string, m: string)
    requires OccursAt(a, m, |a| - |m|)
    ensures Find(a + x, m, 0).Some?
  {
    hide Find;
    OccursFront(a, x, m, |a| - |m|);
  }

  lemma SecretOccurs(a: string, s: string, c: string, q: string)
    requires Occurs(s, q)
    ensures Occurs(a + s + c, q)
  {
    var i :| OccursAt(s, q, i);
    var text := a + s + c;
    forall j | 0 <= j < |q| ensures LowerChar(text[|a| + i + j]) == q[j] { assert text[|a| + i + j] == s[i + j]; }
    assert OccursAt(text, q, |a| + i);
  }

  /** When the marker is the only one, its secret is replaced and nothing else happens. */
  lemma OneReplacement(a: string, r: string, c: string, markers: seq<string>, n: nat)
    requires n < |markers| && Enclosed(a, r, c, markers[n])
    requires forall j :: 0 <= j < |markers| ==> markers[j] != [] && Proper(markers[j])
    requires OnlyMarker(a + r + c, markers, n, |a| - |markers[n]|)
    ensures AllPasses(a + r + c, markers) == a + TOKEN + c
  {
    hide Pass, Proper, OccursAt, AllPasses;
    var text, m := a + r + c, markers[n];
    var out := a + TOKEN + c;
    PassesSplit(text, markers, n);
    var before, after := markers[..n], markers[n + 1..];
    forall j, i | 0 <= j < |before| ensures !OccursAt(text, before[j], i) { assert before[j] == markers[j]; }
    CleanTextIsUnchanged(text, before);
    OneMorePass(text, markers, n);
    OnlyPass(a, r, c, m);
    forall j, i | 0 <= j < |after| ensures !OccursAt(out, after[j], i) {
      assert after[j] == markers[n + 1 + j];
      if OccursAt(out, after[j], i) { NothingNew(a, r, c, m, after[j], i); }
    }
    CleanTextIsUnchanged(out, after);
  }

  lemma ReplaceAtEnd(a: string, r: string, c: string, m: string)
    requires Enclosed(a, r, c, m)
    ensures Replace(a + r + c, |a|) == a + TOKEN + c
  {
    hide Proper, OccursAt;
    ReplaceThrough(a, r, c, m, |a|);
    assert a[..|a|] == a;
  }

  /** What occurs after the replacement occurred before. */
  lemma NothingNew(a: string, r: string, c: string, m: string, q: string, i: int)
    requires Enclosed(a, r, c, m) && Proper(q) && OccursAt(a + TOKEN + c, q, i)
    ensures exists j :: OccursAt(a + r + c, q, j)
  {
    hide Proper, OccursAt;
    ReplaceAtEnd(a, r, c, m);
    OccurrenceWasThere(a + r + c, |a|, q, i);
  }

  lemma OnlyPass(a: string, r: string, c: string, m: string)
    requires Enclosed(a, r, c, m) && m != [] && forall i :: OccursAt(a + r + c, m, i) ==> i == |a| - |m|
    ensures Pass(a + r + c, m, 0) == a + TOKEN + c
  {
    hide Proper, OccursAt, Find, Replace;
    var text, out := a + r + c, a + TOKEN + c;
    EnclosedFits(a, r, c, m);
    MarkerIsFound(a, r, c, m, 0);
    ReplaceAtEnd(a, r, c, m);
    var from := |a| + |TOKEN|;
    if Find(out, m, from).Some? {
      ComesBehind(a, r, c, m, Find(out, m, from).value);
    }
  }

  /** An occurrence behind the token lies behind the secret. */
  lemma ComesBehind(a: string, r: string, c: string, m: string, i: int)
    requires Enclosed(a, r, c, m) && OccursAt(a + TOKEN + c, m, i) && i >= |a| + |TOKEN|
    ensures exists j :: OccursAt(a + r + c, m, j) && j >= |a|
  {
    hide Proper, OccursAt;
    ReplaceAtEnd(a, r, c, m);
    OccurrenceWasThere(a + r + c, |a|, m, i);
    var end := ScanEnd(a + r + c, |a|);
    assert OccursAt(a + r + c, m, i - (|a| + |TOKEN|) + end);
  }

  /**
   The condition is exact where the marker stands alone: beside a secret in whose text no
   other marker occurs, another secret gives the same output if and only if no marker that
   is looked for before this one occurs in it.
   */
  lemma RedactionHidesExactly(a: string, s: string, r: string, c: string, n: nat)
    requires n < |Markers(KEYS)| && Enclosed(a, s, c, Markers(KEYS)[n]) && Enclosed(a, r, c, Markers(KEYS)[n])
    requires OnlyMarker(a + r + c, Markers(KEYS), n, |a| - |Markers(KEYS)[n]|)
    ensures Redacted(a + s + c) == Redacted(a + r + c) <==> forall k :: 0 <= k < n ==> !Occurs(s, Markers(KEYS)[k])
  {
    hide Markers, AllPasses, Proper, OccursAt, ProperKey, Enclosed, Brackets;
    KeysAreProper();
    MarkersAreProper(KEYS);
    var markers := Markers(KEYS);
    OnlyMeansElsewhereNone(a, r, c, markers, n);
    if forall k :: 0 <= k < n ==> !Occurs(s, markers[k]) {
      PassesHide(a, s, r, c, markers, n);
    } else {
      var k :| 0 <= k < n && Occurs(s, markers[k]);
      EarlierMarkerShows(a, s, c, markers, n, k);
      OneReplacement(a, r, c, markers, n);
      SecretBrackets(a, s, c, markers[n]);
      BracketsOfThree(a, TOKEN, c);
      TokenHasABracket();
    }
  }

  lemma OnlyMeansElsewhereNone(a: string, r: string, c: string, markers: seq<string>, n: nat)
    requires n < |markers| && OnlyMarker(a + r + c, markers, n, |a| - |markers[n]|)
    ensures forall k :: 0 <= k < n ==> !Occurs(a, markers[k]) && !Occurs(r, markers[k])
  {
    hide OccursAt;
    forall k | 0 <= k < n ensures !Occurs(a, markers[k]) && !Occurs(r, markers[k]) {
      if Occurs(r, markers[k]) { SecretOccurs(a, r, c, markers[k]); }
      if i :| OccursAt(a, markers[k], i) { OccursInside(a, r, c, markers[k], i); }
    }
  }

  lemma SecretBrackets(a: string, s: string, c: string, m: string)
    requires Enclosed(a, s, c, m)
    ensures Brackets(a + s + c) == Brackets(a) + Brackets(c)
  {
    hide Brackets, Proper, OccursAt;
    BracketsOfThree(a, s, c);
    NoBrackets(s);
  }

  // ---------------------------------------------------------------- word by word

  /** The sensitive words. */
  ghost predicate Sensitive(word: string) {
    word in {"password", "token", "claim_code", "claimcode", "secret",
             "privatekey", "private_key", "authorization", "bearer", "keyfile"}
  }

  /** `c` is the letter `m`, small or capital, or the same other character. */
  predicate SameLetter(c: char, m: char) { c == m || ('a' <= m <= 'z' && c as int + 32 == m as int) }

  /** The word, in any case, and the separator stand at `i`. */
  ghost predicate Shows(text: string, word: string, separator: char, i: int) {
    && 0 <= i && i + |word| + 1 <= |text| && text[i + |word|] == separator
    && forall k :: 0 <= k < |word| ==> SameLetter(text[i + k], word[k])
  }

  lemma KeysAreTheSensitiveWords(word: string)
    ensures word in KEYS <==> Sensitive(word)
  {
    assert KEYS[0] == "password" && KEYS[1] == "token" && KEYS[2] == "claim_code" && KEYS[3] == "claimcode";
    assert KEYS[4] == "secret" && KEYS[5] == "privatekey" && KEYS[6] == "private_key" && KEYS[7] == "authorization";
    assert KEYS[8] == "bearer" && KEYS[9] == "keyfile" && |KEYS| == 10;
  }

  lemma LettersMean(c: char, m: char)
    requires WordChar(m) || m == '=' || m == ':'
    ensures LowerChar(c) == m <==> SameLetter(c, m)
  {
  }

  /** Showing the word with its separator is the occurrence of the marker. */
  lemma ShowingIsOccurring(text: string, word: string, separator: char, i: int)
    requires ProperKey(word) && separator in {'=', ':'}
    ensures Shows(text, word, separator, i) <==> OccursAt(text, word + [separator], i)
  {
    hide LowerChar, SameLetter, WordChar;
    var marker := word + [separator];
    if 0 <= i && i + |marker| <= |text| {
      forall k | 0 <= k < |word| ensures LowerChar(text[i + k]) == marker[k] <==> SameLetter(text[i + k], word[k]) {
        assert marker[k] == word[k];
        LettersMean(text[i + k], word[k]);
      }
      assert marker[|word|] == separator;
      SeparatorMeans(text[i + |word|], separator);
    }
  }

  lemma SeparatorMeans(c: char, separator: char)
    requires separator in {'=', ':'}
    ensures LowerChar(c) == separator <==> c == separator
  {
  }

  /**
   For every text and every one of the ten words: where the output shows the word, in any
   case, with "=" or ":" behind it, the token follows at once, and then a blank, comma,
   semicolon, closing brace or bracket, or the end.
   */
  lemma SensitiveWordsAreRedacted(text: string, word: string, separator: char, i: int)
    requires Sensitive(word) && separator in {'=', ':'} && Shows(Redacted(text), word, separator, i)
    ensures var out, p := Redacted(text), i + |word| + 1;
            && p + 10 <= |out| && out[p..p + 10] == "[REDACTED]"
            && (p + 10 == |out| || out[p + 10] in {' ', ',', ';', '}', ']'})
  {
    hide Redacted, OccursAt, Shows, Sensitive;
    KeysAreTheSensitiveWords(word);
    var k :| 0 <= k < |KEYS| && KEYS[k] == word;
    KeysAreProper();
    ShowingIsOccurring(Redacted(text), word, separator, i);
    assert KEYS[k] + [separator] == word + [separator];
    EveryMarkerIsClosed(text, k, separator, i);
  }

  /** A text comes back unchanged if and only if none of the words shows in it with a separator behind it. */
  lemma UnchangedWordByWord(text: string)
    ensures Redacted(text) == text <==>
              forall word, separator, i :: Sensitive(word) && separator in {'=', ':'} ==> !Shows(text, word, separator, i)
  {
    hide Redacted, OccursAt, Shows, Sensitive, Markers;
    UnchangedExactly(text);
    KeysAreProper();
    MarkersAreProper(KEYS);
    if Plain(text) {
      forall word, separator, i | Sensitive(word) && separator in {'=', ':'} ensures !Shows(text, word, separator, i) {
        KeysAreTheSensitiveWords(word);
        var k :| 0 <= k < |KEYS| && KEYS[k] == word;
        ShowingIsOccurring(text, word, separator, i);
        assert word + [separator] == word + "=" || word + [separator] == word + ":";
        assert word + [separator] in Markers(KEYS);
      }
    } else {
      var n :| 0 <= n < |Markers(KEYS)| && Occurs(text, Markers(KEYS)[n]);
      var i :| OccursAt(text, Markers(KEYS)[n], i);
      var word, separator := MarkerParts(KEYS, n);
      KeysAreTheSensitiveWords(word);
      var k :| 0 <= k < |KEYS| && KEYS[k] == word;
      ShowingIsOccurring(text, word, separator, i);
    }
  }

  /** Every marker is one of the keys and a separator. */
  lemma {:induction false} MarkerParts(keys: seq<string>, n: nat) returns (word: string, separator: char)
    requires n < |Markers(keys)|
    ensures word in keys && separator in {'=', ':'} && Markers(keys)[n] == word + [separator]
  {
    if n < 2 {
      word, separator := keys[0], if n == 0 then '=' else ':';
    } else {
      word, separator := MarkerParts(keys[1..], n - 2);
    }
  }
}
