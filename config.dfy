/** The constants of video_generation/config.py that the workflow uses. */
module Config {
  const DefaultBaseUrl: string := "https://api.thucchien.ai/gemini/v1beta"
  const DefaultModel: string := "veo-3.0-generate-preview"
  const DefaultMaxWaitTime: int := 600
  const InitialPollInterval: real := 10.0
  const MaxPollInterval: real := 30.0
  const PollBackoffMultiplier: real := 1.2
  const MaxRetryAttempts: nat := 3
  const DefaultConcurrentLimit: int := 5
}
