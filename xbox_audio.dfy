/**
 XboxAudio: the audio side of the Xbox port, reduced to its ADPCM entry point
 and the byte counter it keeps for decoded PCM. The source keeps the counter
 and the budget in static members; here they are fields of one object.
 */
module XboxAudio {
  import opened Adpcm

  /** 8 MiB: the budget OptimizeAudioBuffers compares the counter against. */
  const MAX_AUDIO_MEMORY: nat := 8 * 1024 * 1024

  class AudioSystem {
    var audioMemoryUsed: nat
    var maxAudioMemory: nat

    /** The statics before any decode: nothing counted, the 8 MiB budget. */
    constructor ()
      ensures audioMemoryUsed == 0 && maxAudioMemory == MAX_AUDIO_MEMORY
    {
      audioMemoryUsed := 0;
      maxAudioMemory := MAX_AUDIO_MEMORY;
    }

    /**
     Decodes a whole mono IMA ADPCM buffer from the initial channel state
     into a buffer of four bytes per input byte (two 16-bit samples). Inputs
     under four bytes are rejected; anything else fills the buffer exactly,
     one sample per code in low-nibble-first order, and the decoded bytes are
     added to the counter. On failure the counter is unchanged and no PCM is
     handed out.
     */
    method DecodeADPCM(data: seq<Byte>) returns (ok: bool, pcm: seq<int>, pcmSize: nat)
      modifies this
      ensures maxAudioMemory == old(maxAudioMemory)
      ensures ok <==> |data| >= 4
      ensures ok ==>
        && pcmSize == 4 * |data| && |pcm| == 2 * |data|
        && pcm == Stream(INITIAL_STATE, Codes(data), 2 * |data|)
        && InRange(pcm)
        && audioMemoryUsed == old(audioMemoryUsed) + pcmSize
      ensures !ok ==> pcm == [] && pcmSize == 0 && audioMemoryUsed == old(audioMemoryUsed)
    {
      var decoder := new AdpcmDecoder();
      var started := decoder.Initialize(data);
      if !started {
        return false, [], 0;
      }
      var estimatedSize := |data| * 4;
      var buffer := new int[estimatedSize / 2];
      ghost var ch := decoder.States();
      var decoded, decodedSize := decoder.Decode(buffer, estimatedSize);
      ghost var r := Run(ch, false, data, 2 * |data|);
      assert |r.samples| == 2 * |data| && buffer[..] == r.samples by {
        assert buffer[..] == buffer[..|r.samples|];
      }
      MonoRunIsStream(ch, data, 2 * |data|);
      RunInRange(ch, false, data, 2 * |data|);
      if !decoded {
        // The source frees the buffer and fails here; four or more bytes
        // always decode to samples, so this branch is dead.
        assert false;
      }
      ok, pcm, pcmSize := true, buffer[..], decodedSize;
      audioMemoryUsed := audioMemoryUsed + decodedSize;
    }

    /**
     Clears the counter when it is above 80% of the budget. The comparison
     is made on exact rationals: used > 0.8 * max is 5 * used > 4 * max.
     */
    method OptimizeAudioBuffers()
      modifies this
      ensures maxAudioMemory == old(maxAudioMemory)
      ensures audioMemoryUsed == if 5 * old(audioMemoryUsed) > 4 * maxAudioMemory then 0 else old(audioMemoryUsed)
      ensures 5 * audioMemoryUsed <= 4 * maxAudioMemory
    {
      if 5 * audioMemoryUsed > 4 * maxAudioMemory {
        ClearUnusedAudioBuffers();
      }
    }

    /** Forgets everything counted so far. */
    method ClearUnusedAudioBuffers()
      modifies this
      ensures audioMemoryUsed == 0 && maxAudioMemory == old(maxAudioMemory)
    {
      audioMemoryUsed := 0;
    }

    /** The bytes of PCM decoded since the last clear. */
    method GetAudioMemoryUsage() returns (used: nat)
      ensures used == audioMemoryUsed
    {
      used := audioMemoryUsed;
    }
  }
}
