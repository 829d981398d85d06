/**
 stembuild/iaas_cli/iaas_clients/vcenter_client.go: buildGovcCommand and Start, over Go
 slices whose append may write into the array behind its first argument.
 */
module GovcArgs {

  /** len elements from off on; append may use the array up to off + cap. */
  datatype Slice = Slice(arr: array<string>, off: nat, len: nat, cap: nat)

  predicate IsSlice(s: Slice) {
    s.len <= s.cap && s.off + s.cap <= s.arr.Length
  }

  function Elements(s: Slice): (es: seq<string>)
    requires IsSlice(s)
    reads s.arr
    ensures |es| == s.len
  {
    s.arr[s.off..s.off + s.len]
  }

  /** text with part written over it from position at on. */
  function Overwrite(text: seq<string>, at: nat, part: seq<string>): (r: seq<string>)
    requires at + |part| <= |text|
    ensures |r| == |text|
  {
    text[..at] + part + text[at + |part|..]
  }

  method Literal(xs: seq<string>) returns (s: Slice)
    ensures IsSlice(s) && fresh(s.arr) && Elements(s) == xs && s.off == 0 && s.cap == |xs|
  {
    var arr := new string[|xs|](i requires 0 <= i < |xs| => xs[i]);
    s := Slice(arr, 0, |xs|, |xs|);
  }

  method CopyInto(arr: array<string>, at: nat, xs: seq<string>)
    requires at + |xs| <= arr.Length
    modifies arr
    ensures arr[..] == Overwrite(old(arr[..]), at, xs)
  {
    for i := 0 to |xs|
      invariant arr[..] == Overwrite(old(arr[..]), at, xs[..i])
    {
      OverwriteNext(old(arr[..]), at, xs, i);
      arr[at + i] := xs[i];
    }
    assert xs[..|xs|] == xs;
  }

  lemma {:induction false} OverwriteNext(text: seq<string>, at: nat, xs: seq<string>, i: nat)
    requires i < |xs| && at + |xs| <= |text|
    ensures Overwrite(text, at, xs[..i])[at + i := xs[i]] == Overwrite(text, at, xs[..i + 1])
  {
  }

  /**
   append(s, xs...), where xs is read before anything is written.  With room behind s the
   array is written in place; otherwise a new array is made, growth longer than needed.
   */
  method Append(s: Slice, xs: seq<string>, growth: nat) returns (r: Slice)
    requires IsSlice(s)
    modifies s.arr
    ensures IsSlice(r) && Elements(r) == old(Elements(s)) + xs
    ensures s.len + |xs| <= s.cap ==>
              r == s.(len := s.len + |xs|) && s.arr[..] == Overwrite(old(s.arr[..]), s.off + s.len, xs)
    ensures s.len + |xs| > s.cap ==> fresh(r.arr) && s.arr[..] == old(s.arr[..])
  {
    if s.len + |xs| <= s.cap {
      CopyInto(s.arr, s.off + s.len, xs);
      r := s.(len := s.len + |xs|);
    } else {
      var all := Elements(s) + xs;
      var arr := new string[|all| + growth](i => if 0 <= i < |all| then all[i] else "");
      r := Slice(arr, 0, |all|, |all| + growth);
      assert arr[..|all|] == all;
    }
  }

  function CommonArgs(credentialUrl: string, caCertFile: string): seq<string> {
    ["-u", credentialUrl] + (if caCertFile == "" then [] else ["-tls-ca-certs=" + caCertFile])
  }

  /**
   buildGovcCommand.  Whatever the capacity and content of the array behind args, the result
   is args[0], the common flags, then args[1..].  The array is overwritten exactly when the
   capacity suffices, and then only from the second element to the end of the result.
   */
  method BuildGovcCommand(args: Slice, credentialUrl: string, caCertFile: string, growth: nat) returns (r: Slice)
    requires IsSlice(args) && args.len >= 1
    modifies args.arr
    ensures IsSlice(r)
    ensures Elements(r) == [old(Elements(args))[0], "-u", credentialUrl]
                           + (if caCertFile == "" then [] else ["-tls-ca-certs=" + caCertFile])
                           + old(Elements(args))[1..]
    ensures var result := Elements(r);
            if |result| <= args.cap
            then
              && r.arr == args.arr && r.off == args.off
              && args.arr[..] == Overwrite(old(args.arr[..]), args.off, result)
            else fresh(r.arr) && args.arr[..] == old(args.arr[..])
  {
    var commonArgs := CommonSlice(credentialUrl, caCertFile, growth);
    var inner := Append(commonArgs, Elements(args)[1..], growth);
    ghost var text, rest := old(args.arr[..]), Elements(inner);
    assert args.arr[..] == text;
    r := Append(args.(len := 1), Elements(inner), growth);
    CommandText(old(Elements(args)), credentialUrl, caCertFile);
    FirstOf(text, args.off, args.len, rest);
  }

  method CommonSlice(credentialUrl: string, caCertFile: string, growth: nat) returns (commonArgs: Slice)
    ensures IsSlice(commonArgs) && fresh(commonArgs.arr)
    ensures Elements(commonArgs) == CommonArgs(credentialUrl, caCertFile)
  {
    commonArgs := Literal(["-u", credentialUrl]);
    if caCertFile != "" {
      commonArgs := Append(commonArgs, ["-tls-ca-certs=" + caCertFile], growth);
    }
  }

  lemma {:induction false} CommandText(args: seq<string>, credentialUrl: string, caCertFile: string)
    requires |args| >= 1
    ensures [args[0]] + (CommonArgs(credentialUrl, caCertFile) + args[1..])
         == [args[0], "-u", credentialUrl] + (if caCertFile == "" then [] else ["-tls-ca-certs=" + caCertFile])
            + args[1..]
  {
  }

  lemma {:induction false} FirstOf(text: seq<string>, off: nat, len: nat, rest: seq<string>)
    requires len >= 1 && off + len <= |text|
    ensures text[off..off + 1] == [text[off..off + len][0]]
    ensures off + 1 + |rest| <= |text| ==>
              Overwrite(text, off + 1, rest) == Overwrite(text, off, text[off..off + 1] + rest)
  {
  }

  lemma {:induction false} StartArgs(flags: seq<string>, args: seq<string>)
    ensures (["guest.start"] + flags + args)[0] == "guest.start"
    ensures (["guest.start"] + flags + args)[1..] == flags + args
  {
  }

  /** The command Start runs: its caller's variadic slice is only read. */
  method StartCommand(vm: string, username: string, password: string, command: string, args: Slice,
                      credentialUrl: string, caCertFile: string, growth: nat)
    returns (r: Slice)
    requires IsSlice(args)
    ensures IsSlice(r) && fresh(r.arr)
    ensures Elements(r) == ["guest.start", "-u", credentialUrl]
                           + (if caCertFile == "" then [] else ["-tls-ca-certs=" + caCertFile])
                           + ["-l", username + ":" + password, "-vm", vm, command] + Elements(args)
    ensures args.arr[..] == old(args.arr[..])
  {
    var flags := ["-l", username + ":" + password, "-vm", vm, command];
    var fixed := Literal(["guest.start"] + flags);
    var all := Append(fixed, Elements(args), growth);
    StartArgs(flags, Elements(args));
    r := BuildGovcCommand(all, credentialUrl, caCertFile, growth);
    ghost var front := ["guest.start", "-u", credentialUrl]
                       + (if caCertFile == "" then [] else ["-tls-ca-certs=" + caCertFile]);
    assert front + (flags + Elements(args)) == front + flags + Elements(args);
  }
}
