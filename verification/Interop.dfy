/** Device and desktop library together: one key schedule, and each reads what the other
  has enciphered. */
module Interop {
  import opened Aes
  import opened Cbc
  import AesDevice
  import AesDesktop

  /** After r rounds of the key schedule in place, the key buffer of the device is stretch
    number r of the expanded key of the desktop library. */
  method SameSchedule(device: AesDevice.Cipher128, desktop: AesDesktop.Library, key: array<bv8>, rounds: nat)
    requires key.Length == 16 && desktop.roundKey.Length == 176 && key != desktop.roundKey && rounds <= 10
    modifies device, key, desktop.roundKey
    ensures key[..] == desktop.roundKey[16 * rounds..16 * rounds + 16]
  {
    hide *;
    ghost var k: Block := key[..];
    desktop.KeyExpansion(key);
    Stretches(desktop, k, rounds);
    device.rcon := 1;
    AesDevice.StartOfRounds(k, k, 0);
    for r := 0 to rounds
      invariant device.rcon == Rcon(r) && key[..] == RoundKey(k, r)
      invariant desktop.roundKey[16 * rounds..16 * rounds + 16] == RoundKey(k, rounds)
    {
      device.AddRoundKey(null, 0, key);
      AesDevice.RoundKeyStep(k, r);
    }
  }

  lemma Stretches(desktop: AesDesktop.Library, k: Block, r: nat)
    requires desktop.Expanded(k) && r <= 10
    ensures desktop.roundKey.Length == 176 && desktop.roundKey[16 * r..16 * r + 16] == RoundKey(k, r)
  {
    hide RoundKey;
  }

  /** What the device enciphers, whole blocks and at least one, the desktop library deciphers. */
  method DesktopReadsDevice(device: AesDevice.Cipher128, desktop: AesDesktop.Library,
                            data: array<bv8>, output: array<bv8>, key: array<bv8>, iv: array<bv8>)
    requires 16 <= data.Length <= 240 && data.Length % 16 == 0 && output.Length == data.Length
    requires key.Length == iv.Length == 16 && desktop.roundKey.Length == 176
    requires data != output && key != iv && {data, output, desktop.roundKey} !! {key, iv} && desktop.roundKey !in {data, output}
    modifies device, desktop.roundKey, data, output, key
    ensures output[..] == old(data[..]) && key[..] == old(key[..])
  {
    hide CbcEncrypt, CbcDecrypt;
    ghost var plain, k, iv0 := data[..], key[..], iv[..];
    var n := data.Length;
    assert data[..n] == data[..] && data[n..] == [];
    device.EncryptBuffer(data, n, key, iv);
    assert data[..] == CbcEncrypt(k, iv0, plain);
    desktop.DecryptBuffer(output, data, key, iv);
    CbcRoundTrip(k, iv0, plain);
  }

  /** What the desktop library enciphers, the device reads as text. */
  method DeviceReadsDesktop(device: AesDevice.Cipher128, desktop: AesDesktop.Library,
                            data: array<bv8>, output: array<bv8>, key: array<bv8>, iv: array<bv8>)
    requires 16 <= data.Length <= 240 && data.Length % 16 == 0 && output.Length == data.Length
    requires key.Length == iv.Length == 16 && desktop.roundKey.Length == 176
    requires data != output && key != iv && {data, output, desktop.roundKey} !! {key, iv} && desktop.roundKey !in {data, output}
    modifies device, desktop.roundKey, data, output, key, iv
    ensures Strip(output[..]) == Strip(old(data[..])) && key[..] == old(key[..])
  {
    hide CbcEncrypt, CbcDecrypt, CbcDecryptText, Strip;
    ghost var plain, k, iv0 := data[..], key[..], iv[..];
    var n := data.Length;
    desktop.EncryptBuffer(output, data, key, iv);
    assert output[..n] == output[..] && output[n..] == [];
    device.DecryptBuffer(output, n, key, iv);
    assert output[..] == CbcDecryptText(k, iv0, CbcEncrypt(k, iv0, plain));
    StripDecryptText(k, iv0, CbcEncrypt(k, iv0, plain));
    CbcRoundTrip(k, iv0, plain);
  }
}
