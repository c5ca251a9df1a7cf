/**
 * The `mp4decrypt` command line of `download_and_decrypt` (main.py:639-644, built the same
 * way for audio at main.py:662-667): the program name, one `--key KID:KEY` pair per content
 * key in the order the license returned them, then the encrypted input and the output file.
 */
module DecryptArgs {
  import opened Text

  /** One entry of `keys`: the key ID and the content key, both as hex text. */
  datatype ContentKey = ContentKey(kid: string, key: string)

  /** `f"{key_info['kid']}:{key_info['key']}"`. */
  function KeyArg(k: ContentKey): string {
    k.kid + ":" + k.key
  }

  /** The value of a `--key` argument names its key ID and key again, provided neither holds a
      colon (hexadecimal text never does). */
  lemma KeyArgSplits(k: ContentKey)
    requires forall i :: 0 <= i < |k.kid| ==> k.kid[i] != ':'
    requires forall i :: 0 <= i < |k.key| ==> k.key[i] != ':'
    ensures Split(KeyArg(k), ":") == [k.kid, k.key]
  {
    assert KeyArg(k) == k.kid + [':'] + k.key;
    SplitPair(k.kid, ':', k.key);
  }

  /** The loop building `cmd_decrypt_video` (or `cmd_decrypt_audio`). */
  method Mp4decryptCommand(keys: seq<ContentKey>, encrypted: string, decrypted: string) returns (cmd: seq<string>)
    ensures |cmd| == 2 * |keys| + 3
    ensures cmd[0] == "mp4decrypt"
    ensures forall i :: 0 <= i < |keys| ==> cmd[1 + 2 * i] == "--key" && cmd[2 + 2 * i] == KeyArg(keys[i])
    ensures cmd[|cmd| - 2] == encrypted && cmd[|cmd| - 1] == decrypted
  {
    cmd := ["mp4decrypt"];
    var n := 0;
    while n < |keys|
      invariant 0 <= n <= |keys|
      invariant |cmd| == 2 * n + 1
      invariant cmd[0] == "mp4decrypt"
      invariant forall i :: 0 <= i < n ==> cmd[1 + 2 * i] == "--key" && cmd[2 + 2 * i] == KeyArg(keys[i])
    {
      cmd := cmd + ["--key", KeyArg(keys[n])];
      n := n + 1;
    }
    cmd := cmd + [encrypted, decrypted];
  }
}
